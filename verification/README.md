# Verified models of shabadoo

Dafny 4.11 models of the parts of shabadoo whose correctness is an argument about every input or every run, with the
proofs. `dafny verify dfyconfig.toml` checks the whole project.

The Go code is followed branch by branch: code that updates fields is a class, loops are loops, and each method is
proved against a function or predicate that the lemmas are about. Time, randomness, the network, files, JSON and
cryptography are parameters.

- **QR symbols** (`Bits`, `Bch`, `Gf256`, `Polynomials`, `ReedSolomon`, `QrCodewords`, `QrLayout`, `QrZigzag`,
  `QrCapacity`, `QrMatrix`, `QrFormat`, `QrVersionInfo`, `QrSymbol`, `QrEncode`, `QrFigures`). The encoder of `qr.go`,
  byte mode at level M in versions 1 to 10. A reader is written from clauses 7.4 to 7.10 of ISO/IEC 18004:2015: it
  takes the version from the size, refuses from version 7 on unless both blocks of version information announce it
  with correct check bits, takes the mask from either copy of the format information, walks the data path, unmasks by
  row and column, de-interleaves, refuses blocks whose syndromes are not all zero, and parses mode, length and bytes.
  Every payload of at most 213 bytes comes back, under every mask. The table-driven product is shown to be the
  field's, the generator to be the product of its roots, and the parity to be the only one possible; the number of
  modules on the data path is counted, not computed by running the walk. The symbol of a payload and a mask is unique,
  so what the encoder draws is pinned down, and `QrFigures` holds it against the figures and tables of the standard,
  module by module.
- **Transcripts** (`Lines`, `ReadLine`, `Transcript`, `TranscriptEvents`, `TranscriptPaging`, `TranscriptPolling`).
  The chunked backward pager and the forward reader of `claudelog/events.go`, for any chunk size, buffer size, line
  cap and scan bound. Pages are those of "split into lines, keep the readable ones, take the last n"; all pages
  together are the newest records once each, and all of them exactly when the last scan was not cut off by the bound
  before it had seen the rest; polls from any event's offset, whichever direction minted it, find exactly what follows
  it, also while the file grows. Every event on every page says what the bytes of its record decode to.
- **Summaries** (`SummaryCache`, `SummaryRuns`, `SummaryFields`). The incremental summary of `claudelog/claudelog.go`,
  with the maps shared between cached entry and working copy as heap objects, and what each field of a full scan is in
  terms of the file's records.
- **The agent plane** (`CommandPlane`, `CommandPlaneRuns`, `CommandPlaneTraces`, `CommandPlaneCalls`, `AgentAuth`).
  The hub's registries and calls as interleaved steps, what they mean told from the steps alone, and challenges over
  whole runs.
- **The push stream** (`SessionView`, `PushStream`, `PushStreamRuns`). No lost update, for any number of subscribers.
- **Smaller parts**: the wake cap (`WakeCap`, `WakeCapHistory`), the rate limiter (`RateLimiter`), mission log paging
  (`MissionLog`, over `Sorting`), the env file (`EnvFile`) and the release store (`Releases`).

## Where the code and its comments differ

The models follow the code.

- `claudelog/events.go:211-213` says that a client's offset is the position just past the record. Offsets minted by
  `backward` are the position of the record's newline, one less; `RecordAt` and `PollFromEvent` show that both work.
- `claudelog/events.go:301` says that zero means the start of the file was reached. It is also what a page cut off by
  the scan bound reports: `WithinReach` and `BeyondReach` say exactly for which lengths.
- `hub/cap.go:250-251` says that recently woken sessions are let through. Only working ones are, and a session just
  woken counts against itself: `JustWokenIsHeld`.
- `hub/events.go:161-164` keeps the stream open when the view cannot be read, and so swallows the signal: `StaleExact`
  says exactly when.
- `config.go:169-174` promises an edit in place; a value whose line exceeds the scanner's 65535 characters cannot be
  read back, nor can anything after it: `SetExact` and `SetReadsBack`.
- `hub/agentauth.go:244-246` prunes by the clock of the request that issues; requests read the clock before they take
  the lock, so a slower one can find its challenge gone: `PruningExact`.
- `hub/agentauth.go:234` cuts a challenge's timestamp to whole seconds, and `hub/agentauth.go:271` measures the minute
  from there, so a login in the last part of its minute, up to a second, is refused: `LoginExact`.
- `hub/missionlog.go:146-149` says that the id tie-break makes paging correct. It does, except for an undated entry
  without an id (`EndsExact`), and for entries that share both date and id (`CutApart`): `WalkExact` and `WholeLog`
  give the exact conditions.

## Model

| member | source | states |
|---|---|---|
| Gf256.Tables.constructor | qr.go:31-45 | the filled tables hold the powers of 2 modulo 0x11d, twice over, and their logarithms |
| Gf256.Tables.GfMul | qr.go:47-52 | the table product is carry-less multiplication modulo 0x11d, for all bytes |
| Gf256.MulComm | qr.go:47-52 | the field product is commutative |
| Gf256.MulAssoc | qr.go:47-52 | the field product is associative |
| Gf256.MulAdd | qr.go:47-52 | the field product distributes over exclusive or |
| Gf256.MulNonZero | qr.go:47-52 | no two non-zero bytes multiply to zero |
| Gf256.AlphaDistinct | qr.go:31-45 | the first 255 powers of 2 are all different, so the logarithm table is well defined |
| Gf256.PowersCover | qr.go:31-45 | every non-zero byte is a power of 2, so every logarithm is filled in |
| QrFigures.FieldIs | qr.go:31-45 | 2 to the eighth is 0x1d: the field is that of 0x11d |
| Polynomials.EvalTimesRoot | qr.go:58-70 | multiplying by (x + r) multiplies every value by (x + r) |
| Polynomials.ManyRoots | qr.go:74-90 | a polynomial of n coefficients that vanishes at 2^0..2^(n-1) is zero |
| ReedSolomon.GeneratorIsRootProduct | qr.go:54-72 | the generator takes the value of the product of (x + 2^i) everywhere |
| ReedSolomon.GeneratorRoots | qr.go:54-72 | of the 255 powers of 2, exactly 2^0..2^(n-1) are roots of the generator |
| ReedSolomon.RsGenerator | qr.go:56-72 | the loop over arrays builds that generator |
| ReedSolomon.EliminateInPlace | qr.go:85-87 | one round of the division, in place, subtracts the shifted multiple of the generator |
| ReedSolomon.RsEncode | qr.go:75-90 | data followed by the result vanishes at 2^0..2^(n-1); the data part is unchanged |
| ReedSolomon.ParityUnique | qr.go:74-90 | there is only one such parity, so any other byte would break a syndrome |
| QrCodewords.PickVersion | qr.go:144-156 | the smallest version that fits, and none exactly when the payload exceeds 213 bytes |
| QrFigures.Capacity | qr.go:108-119 | the versions hold 14, 26, 42, 62, 84, 106, 122, 152, 180 and 213 bytes, in 1, 1, 1, 2, 2, 4, 4, 4, 5 and 5 blocks |
| QrCodewords.BitBuf.Add | qr.go:136-140 | appends the low bits of a value, highest first |
| QrCodewords.BuildStream | qr.go:166-188 | mode, length, payload, a terminator of at most four bits cut at capacity, zeros to a byte boundary |
| QrCodewords.PackBytes | qr.go:190-199 | packing eight bits to a byte loses and reorders none |
| QrCodewords.DataCodewords | qr.go:166-207 | the stream, then alternating pad bytes up to the version's capacity |
| QrFigures.Pads | qr.go:200-207 | the pad codewords are 11101100 and 00010001 |
| QrFigures.CodewordsSpelled | qr.go:166-207 | the data codewords, half by half: mode 0100, the length, the payload half a codeword on, four zeros, pad codewords in turn |
| QrCodewords.SplitBlocks | qr.go:210-219 | the blocks are the consecutive slices of the data that the version's two groups name |
| QrFigures.BlocksBalanced | qr.go:210-219 | blocks follow each other without a gap, shorter ones first, and differ by at most one codeword |
| QrCodewords.InterleaveData | qr.go:224-232 | every data byte of every block is at its interleaved position |
| QrCodewords.InterleaveEc | qr.go:233-237 | every parity byte of every block is at its interleaved position, after the data |
| QrFigures.InterleavedInOrder | qr.go:224-237 | data codewords stand in the order of their places in the blocks, then of the blocks; error correction codewords likewise, after them |
| QrCodewords.Interleave | qr.go:209-238 | de-interleaving gives back the blocks, each followed by a parity that checks |
| QrCodewords.EncodeData | qr.go:160-239 | codewords of the smallest fitting version, or none exactly for more than 213 bytes |
| QrCodewords.CodewordsRoundTrip | qr.go:160-239 | a reader of the codewords recovers the payload exactly |
| QrZigzag.DataPathExact | qr.go:365-395 | the walk that skips column 6 visits every module that is no function pattern, and visits it once |
| QrFigures.DataPathInOrder | qr.go:365-395 | pairs of columns from right to left around the timing column, up and down in turn, the right module of a row first |
| QrCapacity.DataPathLength | qr.go:289-395 | by counting, the walk has exactly as many modules as the standard's formula says |
| QrCapacity.PathHoldsCodewords | qr.go:108-119 | eight modules per codeword, and 0 or 7 over: no bit is dropped |
| QrMatrix.Matrix.Put | qr.go:258-263 | one module changes, and once reserved it stays reserved |
| QrMatrix.Matrix.Finder | qr.go:265-278 | a finder and its separator, clipped to the symbol; nothing else changes |
| QrMatrix.Matrix.Alignment | qr.go:280-287 | an alignment pattern around its centre; nothing else changes |
| QrMatrix.Matrix.Timing | qr.go:299-304 | both timing patterns; nothing else changes |
| QrMatrix.Matrix.Alignments | qr.go:306-315 | all alignment patterns but the three that would collide with finders |
| QrMatrix.Matrix.FormatArea | qr.go:317-330 | the format areas and the dark module are reserved, without disturbing what was there |
| QrMatrix.Matrix.VersionInformation | qr.go:332-346 | both blocks of 18 version modules, from version 7 on, and no other module |
| QrMatrix.Matrix.Build | qr.go:291-348 | exactly the function modules are reserved, and each shows its pattern |
| QrFigures.FindersShown | qr.go:265-278 | module by module, the three finders with their separators look like Figure 3 and its mirror images |
| QrFigures.AlignmentsShown | qr.go:306-315 | module by module, there is an alignment pattern wherever two lines of Annex E cross, but for the corners with finders |
| QrFigures.TimingShown | qr.go:299-304 | the timing patterns alternate, dark on even coordinates |
| QrSymbol.VersionShown | qr.go:332-346 | in every symbol from version 7 on, the 18 modules of either block, by coordinates, spell the version in six bits and check bits that divide, which is the word of Annex D |
| QrFormat.FormatBits | qr.go:421-431 | a word of the BCH code, masked, that announces level M and the mask |
| QrFormat.RemainderAdd | qr.go:421-431 | the check bits are linear, the ground of the code |
| QrFormat.FormatReserved | qr.go:534-552 | the two copies of the format bits cover exactly the format area, and write only there |
| QrFigures.FormatWordIs | qr.go:421-431 | what announces a mask at level M is the word of Table C.1 |
| QrFigures.FormatShown | qr.go:534-552 | in every symbol, the fifteen modules of either copy, named one by one, spell that word, and the dark module is dark |
| QrSymbol.PlaceData | qr.go:366-395 | the nth module of the walk shows the nth bit, remainder modules are light, function modules are untouched |
| QrFigures.ModulesSpelled | qr.go:366-395 | in every symbol, module k of the walk shows bit k % 8 of codeword k / 8, most significant first, or light when there is none, under the mask |
| QrSymbol.ApplyMask | qr.go:515-522 | exactly the unreserved modules where the mask holds are flipped |
| QrSymbol.MaskFnIsCondition | qr.go:398-417 | the mask by (x, y) is the condition of the standard by row and column |
| QrFigures.MaskShown | qr.go:398-417 | module by module, the eight masks look like Figure 21 |
| QrSymbol.WriteFormat | qr.go:534-552 | both copies read as the format bits, and no module outside the format area changes |
| QrSymbol.EncodeWithMask | qr.go:510-556 | data, both format copies, every function pattern and the dark module, all at once |
| QrSymbol.SymbolRoundTrip | qr.go:510-556 | the reader, which also checks both version blocks, recovers the payload from any such symbol, from either copy of the format bits |
| QrEncode.RoundTrip | qr.go:475-556 | for every payload of at most 213 bytes and every mask, reading undoes encoding |
| QrEncode.FormatWordUnique | qr.go:421-431 | level and mask determine the format word |
| QrEncode.InterleavingUnique | qr.go:209-238 | the data codewords determine the final sequence |
| QrEncode.SymbolUnique | qr.go:510-556 | codewords and mask determine every module of the symbol |
| QrEncode.EncodingUnique | qr.go:475-556 | payload and mask determine the symbol |
| QrEncode.Encode | qr.go:481-496 | the lowest-scoring mask wins, the first of equals; none exactly for more than 213 bytes; the result reads back |
| ReadLine.NextLine | claudelog/claudelog.go:194-211 | whatever the buffer size: the bytes up to and including the newline, or none of them when over-long, and how many were consumed |
| Transcript.ScanBlock | claudelog/events.go:331-351 | a chunk in front of a scan: the carried fragment closes its last line, and no line is split, merged or lost |
| Transcript.ScanBack | claudelog/events.go:318-352 | the scan stops at the start, at one record more than a page, or at the bound, with exactly the lines so far |
| Transcript.DropExtra | claudelog/events.go:354-371 | what is kept holds exactly the limit, and the line before it is a record |
| Transcript.PlaceEvents | claudelog/events.go:388-397 | every record, oldest first, at the offset where its line ends |
| Transcript.Backward | claudelog/events.go:303-399 | the last limit records that the scan reaches, and where the one before them ends |
| TranscriptEvents.Forward | claudelog/events.go:269-290 | the first limit records at or after a position, each at one past its line |
| TranscriptEvents.ForwardReads | claudelog/events.go:269-290 | every event found reading forward says what the bytes from the start of its record to its offset decode to |
| TranscriptEvents.Events | claudelog/events.go:188-266 | which of the three pages is served, and its cursor, start, "more" and reset; every event on it says what its record's bytes decode to; the limit is the one asked for from 1 to 200 and 50 otherwise |
| TranscriptPaging.ScannedIsSuffix | claudelog/events.go:318-352 | what a scan reaches is the end of what splitting the prefix would give |
| TranscriptPaging.RecordsExact | claudelog/events.go:343-397 | the records are the lines that decode: each says what its line decodes to, none is missing, in the order of the file |
| TranscriptPaging.PageReads | claudelog/events.go:303-399 | every event on a page read backwards says what the line that ends at its offset decodes to |
| TranscriptPaging.PageExact | claudelog/events.go:354-386 | a page is the last limit records of the prefix exactly when the scan saw more than a page or all there is; "more" is said exactly when it saw more |
| TranscriptPaging.WithinReach | claudelog/events.go:318 | for every file and decoder, up to the bound rounded up to whole chunks, the page is right |
| TranscriptPaging.BeyondReach | claudelog/events.go:318 | for every decoder that reads some line, every limit, and every length beyond the bound, some file's page comes back empty and says that the beginning was reached |
| TranscriptPaging.RecordPrefix | claudelog/events.go:388-397 | the file cut at a record's offset holds exactly the records up to it |
| TranscriptPaging.PagesExact | claudelog/events.go:248-265 | for every file: paging back ends, the pages are the newest records in order and once each, and they are all records exactly when the oldest page's scan left none unseen |
| TranscriptPaging.PagesAreAll | claudelog/events.go:248-265 | they are all records of a file of any length if every stretch as long as the scan bound, up to the end of a line, holds more records than a page |
| TranscriptPaging.RecordAt | claudelog/events.go:210-221 | asking for one record by either kind of offset gives exactly that record when its line is shorter than the bound reaches, or the file up to there is, and nothing otherwise |
| TranscriptPolling.AdvancedAt | claudelog/events.go:278-283 | an offset minted by reading forward is one past the record's newline |
| TranscriptPolling.AheadIsRest | claudelog/events.go:269-290 | from any position, forward finds the records of what is left, one byte further on |
| TranscriptPolling.CapExact | claudelog/claudelog.go:194-211 | forward misses a record exactly when one ahead is readable and longer than the cap |
| TranscriptPolling.PollFromEvent | claudelog/events.go:223-245 | a poll from any event's offset, of either kind, finds exactly the records after it |
| TranscriptPolling.BoundarySettled | claudelog/events.go:276-287 | a file that ends at a record boundary has nothing half written to trip over |
| TranscriptPolling.PollGrown | claudelog/events.go:223-245 | a poll after the file grew finds exactly the rest, if and only if what was half written was not taken, yields no event, or yields the same once its line is whole |
| TranscriptPolling.NewlineWhole | claudelog/events.go:276-287 | which it does when it only lacks its newline, and the newline does not make it too long |
| TranscriptPolling.PollsLoseNothing | claudelog/events.go:223-245 | over any number of such polls of a growing file nothing is skipped or repeated |
| TranscriptPolling.TailPoll | claudelog/events.go:202-208 | from a tail page of a file that ends at a record boundary, polling finds exactly what was appended |
| TranscriptPolling.TailExact | claudelog/events.go:202-208 | from any other file, the poll reads what is added to the half-written line by itself |
| TranscriptPolling.TailLoses | claudelog/events.go:202-208 | so a record is lost that could be read neither when it was half written nor from there on, for every decoder |
| SummaryCache.FoldBlocks | claudelog/claudelog.go:442-449 | every named tool use is counted once, in place |
| SummaryCache.Fold | claudelog/claudelog.go:378-452 | one record: identity fields, turns, tokens and the two shared maps |
| SummaryFields.FullScanMeans | claudelog/claudelog.go:378-452 | of a full scan: turns and sidechains are counts of records by kind, each token field is the sum over assistants' records, each identity field is the last one set, `started` the first readable time, `last` that of the last timestamp, and models and tools are counted per mention |
| SummaryCache.ScanFile | claudelog/claudelog.go:321-375 | every complete record from the cursor on, over-long ones passed over, a partial one left; or what a failed read had folded |
| SummaryCache.CopySummary | claudelog/claudelog.go:500-517 | an equal summary whose maps are its own |
| SummaryCache.Cache.Summarize | claudelog/claudelog.go:480-498 | the new entry, the other entries, the caller's own maps; on failure only the shared maps have moved |
| SummaryRuns.FoldGrown | claudelog/claudelog.go:321-375 | folding a grown file is folding what it was, then the rest |
| SummaryRuns.CachedIsFull | claudelog/claudelog.go:473-498 | however the growth was cut, the cached summary is a full scan's but for the last time, and the offset is past the last newline folded |
| SummaryRuns.LastExact | claudelog/claudelog.go:369-373 | the whole summary agrees exactly when the last timestamp is missing or readable, or no poll saw a time |
| SummaryRuns.FailedReadsExact | claudelog/claudelog.go:484-497 | over any run of polls of which some fail, the offset and all other fields are as without those, and the counts exceed a full scan's by exactly what the failed reads had counted |
| SummaryRuns.FailedReadCountsTwice | claudelog/claudelog.go:484-497 | one failed read, seen from the next poll |
| CommandPlane.NodeKeyInjective | hub/hub.go:227-229 | no two nodes share a slot |
| CommandPlane.Hub.Login | hub/hub.go:496-519 | the new connection takes slot and token; the old one is closed and its token dropped |
| CommandPlaneCalls.ConnIs | hub/hub.go:496-519 | in every reachable state a connection is what its one login made it, expires a day after it, and was seen when it was last heard from |
| CommandPlane.Hub.BeginCall | hub/hub.go:301-317 | only a registered and live connection is used, and only then is a reply channel registered |
| CommandPlaneCalls.CallTaken | hub/hub.go:301-317 | in every reachable state a call is taken exactly when some connection holds the slot of that tenant's node and logged in, or had a result posted, less than 30 seconds before; it goes to that connection |
| CommandPlaneCalls.CallBegun | hub/hub.go:301-317 | every call in flight or ended was begun so, for its connection's tenant and node, with its command |
| CommandPlaneCalls.CommandsAsked | hub/hub.go:280-347 | over every run, each command a connection was given was asked of that connection's own tenant and node, while it held their slot |
| CommandPlane.Hub.OfferCommand | hub/hub.go:325-331 | queued, busy or gone, with either choice when the queue has room and the connection is closed |
| CommandPlaneCalls.CommandOffered | hub/hub.go:325-331 | what the offer does to the connection's flow and to the call: queued below 64, else offline or busy |
| CommandPlaneCalls.CallEnds | hub/hub.go:325-347 | each way a call can end, exactly when: offline only when its connection is closed, busy only when it is open with 64 commands queued |
| CommandPlane.Hub.Deliver | hub/hub.go:631-637 | a result fills an empty slot and is otherwise dropped |
| CommandPlane.Hub.Receive | hub/hub.go:336-341 | the result that fills the slot, which is empty then |
| CommandPlane.Hub.Drop | hub/hub.go:734-741 | the slot is freed only if it is still this connection's; the token goes |
| CommandPlaneRuns.LoginLinked | hub/hub.go:509-519 | a login keeps slots and tokens inverse to each other |
| CommandPlaneRuns.DropLinked | hub/hub.go:734-743 | a disconnect keeps slots and tokens inverse to each other |
| CommandPlaneRuns.InvStep | hub/hub.go:280-347 | every step of every interleaving keeps the whole invariant |
| CommandPlaneRuns.FlowStep | hub/hub.go:325-331 | what a connection was given only ever grows at the end |
| CommandPlaneTraces.EveryState | hub/hub.go:280-347 | in every reachable state: inverse maps, at most 64 queued, pending is the calls in flight, no command twice or astray |
| CommandPlaneTraces.TokenSpeaks | hub/hub.go:719-732 | in every reachable state a token resolves exactly to the unexpired connection it was given to, which then holds its node's slot |
| CommandPlaneCalls.TokenWorks | hub/hub.go:719-732 | a token resolves to a connection exactly when a login of that connection handed it out at most a day before and the connection still holds its node's slot |
| CommandPlaneTraces.WaitsAlone | hub/hub.go:627-629 | in every reachable state a result goes to the channel of the call with its id, which is in flight and shares that channel with no other |
| CommandPlaneTraces.LateDisconnect | hub/hub.go:734-743 | the end of a superseded stream changes nothing |
| CommandPlaneTraces.SlotKept | hub/hub.go:509-519 | a slot changes hands only by a login for the node or the end of that very connection |
| CommandPlaneTraces.DeadForever | hub/hub.go:719-743 | a token that stopped working never works again |
| CommandPlaneTraces.GoneIsDead | hub/hub.go:745-767 | a disconnect ends the token |
| CommandPlaneTraces.SupersededIsDead | hub/hub.go:510-519 | a superseding login ends the token and closes the stream |
| CommandPlaneTraces.RepliesArePosted | hub/hub.go:336-341 | a reply that a call returns was posted for its own id while the call was pending |
| CommandPlaneCalls.ResultArrives | hub/hub.go:627-638 | a posted result whose call waits with an empty channel can be found and delivered, and is what the call returns |
| CommandPlaneTraces.OutcomeStands | hub/hub.go:627-638 | results that come late or twice change no call |
| CommandPlaneCalls.FirstResult | hub/hub.go:627-638 | in every run, a call that returns a result returns the first one delivered for it |
| CommandPlaneTraces.FlowsGrow | hub/hub.go:594-611 | a stream sends what its connection was given, in that order |
| AgentAuth.BlobInjective | hub/agentauth.go:218-223 | what is signed for one challenge is signed for no other |
| AgentAuth.BlobIsLines | hub/agentauth.go:218-223 | what is signed is the namespace, the nonce and the timestamp in decimal, each on a line |
| AgentAuth.Authorizer.Prune | hub/agentauth.go:247-253 | exactly the expired challenges go, though the map changes while it is walked |
| AgentAuth.Authorizer.Issue | hub/agentauth.go:226-242 | the pruned map and the new challenge, stamped with the whole second in which it was issued |
| AgentAuth.Authorizer.Verify | hub/agentauth.go:261-302 | the verdict in the code's order of checks; the nonce is used up by any timely attempt |
| AgentAuth.VerdictExact | hub/agentauth.go:261-302 | each verdict by its cause: accepted, stale, unknown key and bad signature, exactly when |
| AgentAuth.LoginExact | hub/agentauth.go:226-302 | over every run, a challenge returned as issued, signed by a listed key, its nonce pending, is accepted as the first agent with that key exactly when the clock is within 60 seconds of the whole second of its issue, and is stale otherwise |
| AgentAuth.AcceptedInTime | hub/agentauth.go:261-302 | an accepted login used a nonce issued within the TTL and untried since, signed by a listed key |
| AgentAuth.AcceptedOnce | hub/agentauth.go:255-282 | no nonce is accepted twice over any run |
| AgentAuth.PruningExact | hub/agentauth.go:244-253 | a verdict depends on pruning exactly when an issue that saw a later clock dropped the nonce of an attempt in time, which is then refused as stale |
| AgentAuth.PruningHarmless | hub/agentauth.go:244-253 | so with a clock that does not go back, none does |
| AgentAuth.PendingBounded | hub/agentauth.go:244-253 | after an issue, everything pending was issued within one TTL |
| SessionView.FingerprintExact | hub/events.go:254-284 | two views have one fingerprint exactly when they hold the same stripped nodes, in any order |
| SessionView.AlikeExact | hub/events.go:267-275 | two nodes are stripped alike exactly when they differ only in session order and update times |
| SessionView.FingerprintIs | hub/events.go:254-284 | when nodes differ in name and a node's sessions in id, two views have one fingerprint exactly when they show the same: one for one the same name and rendered fields, and the same ids and rendered fields of sessions, in any order |
| SessionView.ClocksUnseen | hub/events.go:254-284 | build and update times never show in a fingerprint |
| PushStream.Subscribers.Add | hub/events.go:65-74 | the new subscriber, with an empty slot |
| PushStream.Subscribers.Remove | hub/events.go:76-83 | the subscriber goes, and the tenant with its last |
| PushStream.Subscribers.Notify | hub/events.go:88-97 | exactly the tenant's subscribers hold a signal that did not before |
| PushStream.Handler.Send | hub/events.go:160-200 | skip, frame with the next number, or the end of the stream |
| PushStreamRuns.InvStep | hub/events.go:136-252 | every step of every interleaving keeps the whole invariant |
| PushStreamRuns.LogIs | hub/events.go:88-97 | what is logged and announced in a run, told from its steps: every change in order, and the version current at the last notify |
| PushStreamRuns.SignalIs | hub/events.go:65-97 | in every run, a handler's channel holds a signal exactly when its tenant was notified since it joined and since it last took one |
| PushStreamRuns.NoLostUpdate | hub/events.go:212-235 | the last frame of an idle handler with no signal shows, node by node and session by session, what some version no older than the last announced does, unless its last read failed |
| PushStreamRuns.QuietIsCurrent | hub/events.go:212-235 | once everything is announced it shows what the current view does |
| PushStreamRuns.StaleExact | hub/events.go:161-164 | an idle handler with no signal is behind exactly when a read it had to make has failed, and no notify of its tenant and no end of its request came since |
| PushStreamRuns.UpToDate | hub/events.go:212-235 | otherwise its last frame shows what the version it last saw does, which is no older than the last announced |
| PushStreamRuns.NumbersIncrease | hub/events.go:141-158 | an item carries the number of frames so far: frames count up from one, and a ping repeats the last number |
| PushStreamRuns.FramesDiffer | hub/events.go:170-185 | no frame renders as the one before it: something shown differs |
| WakeCap.Cap.Concurrent | hub/cap.go:170-189 | the count is the size of the union of live working and live woken sessions, though entries go during the walk |
| WakeCap.Cap.Observe | hub/cap.go:144-167 | exactly the sessions whose total rose are marked working; the high-water mark follows |
| WakeCapHistory.WorkingExactly | hub/cap.go:144-167 | over every run, a session counts as working exactly when some report in the last 90 seconds showed a token sum above its last one, neither being zero |
| WakeCapHistory.HighWaterExact | hub/cap.go:163-167 | the high-water mark is the most that were busy at any report |
| WakeCap.Cap.Allow | hub/cap.go:221-267 | held exactly when the cap binds and the busy sessions reach the limit, with how many are ahead |
| WakeCapHistory.HeldExactly | hub/cap.go:221-267 | over every run, a wake is held exactly when it is not exempt, the cap is on, the session is not working, and those working or woken in the last 60 seconds reach the limit |
| WakeCapHistory.RequestCounted | hub/cap.go:221-267 | what a request changes, case by case: counters, holds and grants |
| WakeCap.Cap.ClearQueued | hub/cap.go:288-295 | one hold is forgotten |
| WakeCap.WindowBound | hub/cap.go:256-266 | in any 60 seconds at most limit sessions are granted a gated wake |
| WakeCap.JustWokenIsHeld | hub/cap.go:250-262 | for every limit: a session just woken counts against itself, and is held exactly when it and the others that are busy reach the limit |
| WakeCap.HoldRemembered | hub/cap.go:256-263 | a hold is remembered since the first time, until a grant or a clear |
| RateLimiter.Times.KeepNewer | hub/ratelimit.go:44-49 | filtering in the array being read keeps exactly the newer timestamps, in order |
| RateLimiter.NewerSplit | hub/ratelimit.go:44-49 | timestamps are kept one by one, in order: those after the cutoff |
| RateLimiter.Times.RemoveLast | hub/ratelimit.go:67-73 | exactly the last equal timestamp goes |
| RateLimiter.WithoutIs | hub/ratelimit.go:67-73 | a refund takes out the last timestamp equal to it, and nothing if there is none |
| RateLimiter.Limiter.Allow | hub/ratelimit.go:39-56 | what is kept for the key and the answer; other keys are untouched |
| RateLimiter.Limiter.Refund | hub/ratelimit.go:63-74 | one reservation of the key is given back; other keys are untouched |
| RateLimiter.KeptIsRecent | hub/ratelimit.go:44-49 | nothing is forgotten that could still count |
| RateLimiter.AllowExact | hub/ratelimit.go:39-56 | allowed exactly when fewer than the limit of the events allowed and not refunded lie in the window |
| RateLimiter.WindowBound | hub/ratelimit.go:20-56 | no window ever holds more allowed and unrefunded events than the limit |
| Sorting.SortedUnique | hub/events.go:265-273 | without ties there is one sorted order, whatever order a map was walked in |
| Sorting.StringOrder | hub/missionlog.go:149-155 | the first difference decides, and a string comes before what it begins |
| MissionLog.Serve | hub/missionlog.go:86-196 | the first limit entries past the cursor, dates never rising and ids never falling within one date; whether more follow; and both cursors |
| MissionLog.EntriesInOrder | hub/missionlog.go:146-155 | every page holds entries of the log, newest first and by id within one date |
| MissionLog.OnPage | hub/missionlog.go:159-190 | a key is on a page exactly when it lies past the cursor asked with and not past the one given |
| MissionLog.ExactlyOnce | hub/missionlog.go:146-190 | as long as no Next reads as no cursor, a key there throughout is on exactly one page, whatever comes and goes between requests |
| MissionLog.WalkExact | hub/missionlog.go:146-190 | over a fixed log and for each limit, following Next to an empty page ends and gives every entry once, in order, exactly when no page ends on a blank entry or between two of one key |
| MissionLog.WholeLog | hub/missionlog.go:146-190 | it does for every limit from 1 to 200 exactly when no entry is blank and no two share date and id |
| MissionLog.EndsExact | hub/missionlog.go:159 | following Next ends for every limit from 1 to 200 exactly when no entry is both undated and without an id |
| MissionLog.CutApart | hub/missionlog.go:159-168 | when a page ends between two entries of one key, no other page up to a blank Next has that key, so the second entry is on none |
| EnvFile.UnquoteShellQuote | launch.go:137-193 | unquoting undoes shell quoting, for every string |
| EnvFile.UnquoteDoubleQuoted | launch.go:137-146 | a value escaped in double quotes reads as itself, and so does one without quotes around it |
| EnvFile.ShellReads | launch.go:190-193 | a shell takes a quoted value for exactly that value |
| EnvFile.AssignedRuns | config.go:175-211 | the line that is written exports the key with a word that a shell takes for exactly the value |
| EnvFile.EnvFileMap | launch.go:101-123 | the last assignment of each key before the first line too long to scan |
| EnvFile.PlainReads | launch.go:101-123 | an assignment without export and quotes reads as it is; a comment assigns nothing |
| EnvFile.TrimIs | launch.go:101-123 | trimming takes white space off both ends and nothing else |
| EnvFile.AssignsIs | config.go:239-247 | the editor and the reader agree on which lines assign a key |
| EnvFile.SetEnvFileValue | config.go:175-211 | the first assignment replaced, later ones dropped; or blank lines trimmed and the line appended |
| EnvFile.RemoveEnvFileKey | config.go:213-234 | the other lines, or nothing to do |
| EnvFile.SetExact | config.go:175-211 | what is read back after a set, for every file: the value if nothing up to its line is too long to scan, and the other keys as if no line assigned this one |
| EnvFile.SetClean | config.go:175-211 | in a file without over-long lines the key maps to exactly the value, and every other key as before |
| EnvFile.OthersAsBefore | launch.go:109-110 | the other keys stay as they were exactly when an over-long assignment of the key hid nothing new |
| EnvFile.SetReadsBack | launch.go:109-110 | a value reads back exactly when its line, and every line ahead of it, has at most 65535 characters |
| EnvFile.SetKeepsOthers | config.go:169-199 | all comments and foreign assignments stay, in order |
| EnvFile.SetKeepsSolid | config.go:169-199 | every line that says something and does not assign the key is there after a set, as it was and in order; nothing is added but the assignment, and the header of a file that said nothing |
| EnvFile.SetTwice | config.go:175-211 | setting again only adds a newline at the end |
| EnvFile.RemoveExact | config.go:213-234 | the key goes from the map; the other keys are as if no line assigned it; without over-long lines, there is something to do exactly when the key is read |
| Releases.TextInjective | hub/release.go:111-113 | no two components share an entry |
| Releases.Store.Walk | hub/release.go:246-254 | the versions kept are newest, and every other release of the group is doomed |
| Releases.Store.Prune | hub/release.go:222-265 | in every group, exactly the newest three versions stay, whole, and entries whose files could not be removed |
| Releases.Store.Publish | hub/release.go:209-214 | the new entry, then pruning |
| Releases.Store.Get | hub/release.go:557-565 | exactly the component asked for |
| Releases.Store.ToolSet | hub/release.go:575-617 | every component of the version, in order; of a newest version when none is asked for |
| Releases.SetMeans | hub/release.go:575-617 | the set holds the releases of that tool, platform and version and no others, in the order of their components' names |
| Releases.NewestMeans | hub/release.go:575-617 | and when no version is asked for, it is of a version with the newest publish time of that tool and platform |
| Releases.SetsStayWhole | hub/release.go:226-231 | no version is left in part: of the releases of one tool, platform and version all stay or none |
| Releases.AtMostThree | hub/release.go:44-51 | at most three versions of a tool are left for a platform |
| Releases.DroppedIsOlder | hub/release.go:244-254 | what goes belongs to none of three versions that stay, each with a release at least as recent |
| Releases.NewestSurvives | hub/release.go:244-254 | a release more recent than every other version's is never pruned |
| Releases.PublishedIsInstalled | hub/release.go:575-617 | a version just published that is newer than every other is what a node is told to install, whole |

## Left out

- QrEncode.Encode: the penalty is any score on grids, because any mask gives a valid symbol; `penalty` itself is not modelled.
- QR rendering for terminal, SVG and PNG: drawing of a finished matrix.
- Transcript.Backward: a file is a snapshot of its bytes; what another process appends while one page is read is not seen.
- TranscriptPolling.PollFromEvent: decoders ignore a newline at the end of a line, as trimming and JSON do; the content of a record is one opaque value.
- SummaryCache.ScanFile: the size that is asked for is the size that is read; JSON, timestamps and trimming are functions given from outside; counters do not wrap at 64 bits.
- CommandPlane.Hub.Login: connections and reply channels sit in tables keyed by address, standing for pointers; tokens, ids and addresses are new ones each time.
- CommandPlane.Hub.BeginCall: encoding the payload, and the check that a node's build understands panes, come before and are not modelled.
- CommandPlaneTraces.RepliesArePosted: the code accepts a result for a call from any agent with a working token, and the statement says no more.
- Platform, capabilities and payload reports of connections: set and read, without effect on the rest.
- AgentAuth.Authorizer.Verify: keys and signatures are functions given from outside; watching the key file is a reload handed in.
- PushStreamRuns.NoLostUpdate: the view is read in one step, and its fingerprint is the stripped view rather than a hash of it.
- PushStream.Handler.Send: failures to encode a payload are not modelled.
- WakeCap.Cap.Allow: the kill switch is a flag handed in, set when the file is there or cannot be ruled out; the nil cap, which lets everything through, has no object.
- MissionLog.Serve: entries carry the time that `entryTS` gives them, and cursors are values rather than base64 text; among entries with one key the sort keeps the order in which they came; fanning out to nodes is left out.
- EnvFile.SetEnvFileValue: reading and replacing the file is left out; lengths count characters, which are bytes in plain text.
- Releases.Store.Publish: receiving, hashing and renaming the upload come before; file names are taken to be different for different releases.
- `Latest` in the release store, watchers for blocked sessions, holds, missions, todo lists, tmux, services and self-update: small, or plumbing.
