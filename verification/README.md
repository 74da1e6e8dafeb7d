# Verified models of the crytex core algorithms

This project models, in Dafny, the self-contained algorithms and state machines of the crytex workspace and proves what
they promise, for all inputs, all runs and all schedules:

- **Impact analysis** (`CodeGraph`, `CallChains`, `Ranking`, `Impact`, `ImpactSet`): the bounded reverse breadth-first
  search over a call graph returns exactly the symbols with a chain of calls to the start, each at its exact distance,
  and its counter is given a meaning. Chains of calls are specified on their own; the search is a loop over a queue.
- **GGUF metadata** (`Utf8`, `Utf8Text`, `GgufFormat`, `GgufCodec`, `GgufPrint`, `GgufReader`): the reader of the
  metadata section (ggml `docs/gguf.md`, "File Structure") and the layout undo each other, in both directions, at every
  nesting depth; so do the reader and a printer of values.
- **JSON repair** (`Characters`, `JsonText`, `JsonRepair`, `JsonTokenPasses`, `JsonKeyPass`, `JsonValues`,
  `JsonLexing`, `JsonRecovery`, `JsonLabels`, `JsonDamage`, `JsonAnyText`): each character scanner is proved equal to a
  function on text, that function to a pass on tokens, and the passes to invert their damage on every JSON value
  (RFC 8259) in every layout; for several kinds of damage at once, exactly when the whole chain does.
- **Token economy** (`Compression`, `OrderedCache`, `ContextCache`, `ContextProducers`, `ContextPuts`,
  `SharedContext`, `Offload`, `CcrStore`, `TokenEconomy`, `TokenReports`): a map and a deque that together are one
  queue, compression that keeps facts, markers that lead back to what they stand for, and the optimizer over all of
  them, with what its report says.
- **Document windows** (`DocWindows`, `DocChunks`): overlapping windows over UTF-8 (RFC 3629) that end, cut at
  characters only, and rejoin to the text.
- **Project index** (`ChunkIndex`, `IndexRuns`, `IndexRebuild`, `IndexPoints`, `IndexPitfalls`, `Indexer`): what the
  index kept file by file holds after any run, and exactly when it agrees with one built from nothing.
- **Benchmark harness** (`Harness`, `HarnessRuns`, `HarnessConclusion`): a schedule bounded by permits whose outcome
  does not depend on the order in which cases finish.
- **Deduplication and sizing** (`Dedup`, `Sizing`): greedy selection under a metric, the fingerprint as a median, and
  the knee of a bigram curve.
- `Wrappers`, `Numbers` and `Collections` hold what several components need.

Where the source changes things step by step, the model is a method or a class whose contract ties the new state to a
function of the old one; what the source promises is then proved of that function. Hashes, embedders, estimators,
scorers, the chunker and the clock are parameters.

## Where the code and what is said about it disagree

The code is modelled as it is. Each of these has the exact condition, and an input unless the condition names it.

- `path_count` is documented as the number of distinct paths (crates/crytex-doc/src/impact.rs:26-27). It counts the
  last edges of shortest chains: `Impact.PathCountIsPathsIff`, `Impact.PathCountIsNotPaths`.
- `impact_set` is said to rank by distance from the changed symbols (crates/crytex-doc/src/impact.rs:24-25, 107-108);
  the distance is that of the first listed symbol that reaches a node, as a caller if it is one:
  `ImpactSets.NearestIff`, `ImpactSets.FirstStartNeedNotBeNearest`, `ImpactSets.ImplementorListedAsCaller`.
- GGUF keys and strings come back as written only if they are clean: `GgufCodec.MetadataRoundTripIff`,
  `GgufFormat.NulKeysCollide`.
- The JSON repair chain does not undo a comma added before a closing token that was cut off, nor quote a key left bare
  where its comma was dropped: `JsonDamage.DamageRepairedIff`, `JsonDamage.CommaBeforeCutBracket`,
  `JsonDamage.BareSecondKey`.
- Removing trailing commas is idempotent except where they are doubled: `JsonAnyText.RemovalIdempotentIff`,
  `JsonAnyText.DoubledCommaStays`.
- Closing containers closes everything unless the text ends on a pending backslash escape: `JsonAnyText.ClosesIff`,
  `JsonAnyText.PendingEscapeStaysOpen`.
- The eviction loop of the shared context does not end for `max_entries == 0`: `OrderedCache.EvictionEndsIff`,
  which speaks of every cache.
- A marker retrieves the last content stored under its key: `CcrStores.MarkersRetrieveOwnIff`,
  `CcrStores.CollidingMarker`.
- A chunk's end line is cut to the stated number of lines and can come before its start line:
  `DocWindows.LinesInOrderIff`, `DocWindows.LinesOutOfOrder`.
- `remove_file`, and `index_file` for a file without chunks, do not turn backslashes into slashes, so chunks can stay
  behind: `IndexRebuild.RemoveUndoesIndexIff`, `IndexPitfalls.RemovedWithBackslash`, `IndexRebuild.IndexFileExactIff`,
  `IndexPitfalls.EmptiedWithBackslash`. `index` deletes nothing, so indexing twice stores a file twice:
  `IndexRebuild.IndexExactIff`, `IndexPitfalls.IndexedTwice`. A changed file is indexed alone, so the chunks of others
  that tell of it go stale: `IndexRebuild.RebuildAgreesIff`, `IndexPitfalls.StaleNeighbour`.
- The budget planner's saturating sums can let a window through that does not hold its parts:
  `TokenEconomy.PlanSharesWindow`, `TokenEconomy.OverfullPlan`.
- `optimal_k` is documented never to return fewer than `min_k` (crates/crytex-compress/src/sizing.rs:41); the contract
  of `Sizing.OptimalK` says exactly when it does not, as for up to 8 items and fewer than `min_k`.

`index_file` reports one chunk whatever their number (crates/crytex-core/src/indexer.rs:138-141), which the contract of
`Indexers.ProjectIndexer.IndexFile` states.

## Model

| member | source | states |
|---|---|---|
| CodeGraphs.BuiltGraphsAreValid | crates/crytex-doc/src/graph/mod.rs:139-168 | any sequence of additions, in any order, leaves edges between existing nodes, an index that inverts the node ids, and no id twice |
| CallChains.WalkIsPath | crates/crytex-doc/src/impact.rs:42-47 | a chain of k calls is the same as a sequence of k + 1 symbols each calling the next |
| CallChains.SingleChainIff | crates/crytex-doc/src/impact.rs:26-27 | a symbol has one shortest chain if and only if every symbol on the way has a single call leading closer |
| CallChains.CountIsChainsIff | crates/crytex-doc/src/impact.rs:26-27 | closing edges never outnumber shortest chains, and are as many exactly when every closer symbol has one chain |
| Ranking.SortByRank | crates/crytex-doc/src/impact.rs:101-101 | the result is a permutation in order of distance, then name by code points |
| Ranking.SortKeepsEntries | crates/crytex-doc/src/impact.rs:101-102 | sorting neither drops nor doubles a symbol |
| Impact.FoundUpTo | crates/crytex-doc/src/impact.rs:61-86 | once everything nearer than a depth is scanned, every symbol with a chain up to that depth is found, no farther than it is |
| Impact.NewCallerDistance | crates/crytex-doc/src/impact.rs:74-80 | a caller first met from depth d has distance exactly d + 1 |
| Impact.Relax | crates/crytex-doc/src/impact.rs:74-84 | one Calls edge: a new caller is queued at the next depth, one already at that depth is counted once more, any other stays |
| Impact.ScanCallers | crates/crytex-doc/src/impact.rs:65-85 | a round looks at every incoming call of a symbol and keeps exact distances, counts and the two-level queue |
| Impact.Complete | crates/crytex-doc/src/impact.rs:61-86 | with an empty queue: found are exactly the bounded callers, at their distances, with the number of closing edges |
| Impact.Explore | crates/crytex-doc/src/impact.rs:53-86 | on any graph, cycles included, the search ends, queues every symbol once by non-decreasing depth, and finds exactly the symbols within the bound |
| Impact.TransitiveCallers | crates/crytex-doc/src/impact.rs:43-103 | exactly the symbols other than the start with a chain of 1 to `max_depth` calls to it, each once, with exact distance and closing-edge count, ranked; nothing for an unknown id |
| Impact.CallersDetermined | crates/crytex-doc/src/impact.rs:88-102 | the answer does not depend on the order in which the hash set is walked |
| Impact.PathCountIsPathsIff | crates/crytex-doc/src/impact.rs:26-27 | `path_count` is at most the number of shortest chains, and equal to it if and only if nothing nearer branches |
| Impact.PathCountIsNotPaths | crates/crytex-doc/src/impact.rs:76-83 | a diamond below a call: one counted, two shortest chains |
| ImpactSets.PushNew | crates/crytex-doc/src/impact.rs:122-124 | an entry is added if and only if its id is not listed yet |
| ImpactSets.PushImplementors | crates/crytex-doc/src/impact.rs:127-145 | every direct implementor is listed, at distance 1 unless it was listed already |
| ImpactSets.ImpactSet | crates/crytex-doc/src/impact.rs:109-148 | exactly the union over the starts of bounded callers and, when asked, direct implementors, each symbol once, reported by the first start that reaches it, ranked |
| ImpactSets.ImpactDetermined | crates/crytex-doc/src/impact.rs:109-148 | graph and query determine the entries, distances and counts |
| ImpactSets.SingleStart | crates/crytex-doc/src/impact.rs:109-125 | for one start without implementors, the impact set is its transitive callers |
| ImpactSets.NearestIff | crates/crytex-doc/src/impact.rs:119-145 | no start is nearer than the listed distance, by calls or by implementing, if and only if the symbol does not implement the first start that reaches it while being farther from it as a caller, and no later start has a shorter chain or is implemented |
| ImpactSets.FirstStartNeedNotBeNearest | crates/crytex-doc/src/impact.rs:119-125 | a symbol two calls from the first start and one from the second is ranked at 2 |
| ImpactSets.ImplementorListedAsCaller | crates/crytex-doc/src/impact.rs:119-145 | a direct implementor that also calls the start through another symbol is ranked at 2 |
| Utf8.LossyIdentityIff | crates/crytex-inference-candle/src/model.rs:254-254 | lossy decoding changes exactly the ill-formed byte strings |
| Utf8.LossyIsValid | crates/crytex-inference-candle/src/model.rs:254-254 | what lossy decoding returns is well-formed UTF-8 |
| Utf8Text.ValidIff | crates/crytex-compress/src/token_economy.rs:559-559 | the well-formed byte strings are exactly the encodings of texts, and the length of a text in bytes is that of its encoding |
| GgufFormat.FromToLe | crates/crytex-inference-candle/src/model.rs:1341-1350 | a number that fits its field is read back from its little-endian bytes |
| GgufFormat.ToFromLe | crates/crytex-inference-candle/src/model.rs:257-313 | bytes of any width are the little-endian form of the number read from them |
| GgufFormat.StringReadBack | crates/crytex-inference-candle/src/model.rs:242-255 | a written string loses its trailing NULs and nothing else, so it comes back exactly when it has none |
| GgufFormat.StringReadBackIff | crates/crytex-inference-candle/src/model.rs:242-255 | exactly the well-formed strings without a NUL at the end come back as written |
| GgufFormat.MeansWrittenIff | crates/crytex-inference-candle/src/model.rs:187-233 | reading leaves the strings of a value, however nested, as they were written if and only if all of them are clean (what numbers are read as is `GgufPrint.PrintReadBack`) |
| GgufFormat.LaterDuplicatesWin | crates/crytex-inference-candle/src/model.rs:172-178 | a key is in the map if and only if some entry has it, with the value of the last one |
| GgufFormat.MetadataIsWrittenIff | crates/crytex-inference-candle/src/model.rs:172-178 | the same condition decides for any entries whether reading changes the map |
| GgufFormat.NulKeysCollide | crates/crytex-inference-candle/src/model.rs:172-178 | two written keys that differ in a trailing NUL become one, under which the later value is found |
| GgufCodec.DecodeEncoded | crates/crytex-inference-candle/src/model.rs:187-233 | a well-formed value lying anywhere in a file is read back whole, or refused as too deep exactly when a non-empty array sits at depth 64 |
| GgufCodec.DecodedIsEncoded | crates/crytex-inference-candle/src/model.rs:187-233 | whatever is decoded is well formed, of the type asked for, at least a byte long, and lies encoded where it was read |
| GgufCodec.ValueIff | crates/crytex-inference-candle/src/model.rs:187-255 | at any depth, a value is decoded from a place if and only if its encoding lies there, it is well formed and does not nest too deep |
| GgufCodec.ValueIsLocal | crates/crytex-inference-candle/src/model.rs:187-255 | at any depth, the result depends on the consumed bytes only |
| GgufCodec.NoPrefixDecodes | crates/crytex-inference-candle/src/model.rs:187-255 | no strict prefix of the encoding of any well-formed value decodes, at any depth and however it nests |
| GgufCodec.RoundTrip | crates/crytex-inference-candle/src/model.rs:155-185 | for versions 1 to 3, a metadata section followed by anything is read back entry by entry and consumed to its last byte, unless it nests too deep |
| GgufCodec.MetadataRoundTripIff | crates/crytex-inference-candle/src/model.rs:155-185 | a written section is consumed to its last byte, and the map handed out is that of the entries as written, later duplicates winning, if and only if all keys and all winning values are clean: well formed, with no NUL at the end |
| GgufCodec.AcceptedIsEncoded | crates/crytex-inference-candle/src/model.rs:155-185 | only encodings of well-formed sections are accepted |
| GgufPrint.DigitAt | crates/crytex-inference-candle/src/model.rs:257-313 | the i-th byte of a printed number is its i-th digit to base 256, for negative numbers in two's complement |
| GgufPrint.NumberReadBack | crates/crytex-inference-candle/src/model.rs:257-313 | in each width, unsigned and signed numbers in range come back from their printed bytes |
| GgufPrint.PrintReadBack | crates/crytex-inference-candle/src/model.rs:187-233 | any value in range, of any type and nesting, printed at a position and read with its type code comes back itself, and the reader stops where the print does; it is refused exactly when it nests too deep |
| GgufPrint.HandedOutIsPrintIff | crates/crytex-inference-candle/src/model.rs:187-255 | whatever is accepted has the type asked for; what was read is the print of the value handed out, which is in range, if and only if its strings are clean and its empty arrays have element type 0, as numbers and flags always are |
| GgufPrint.SectionReadBack | crates/crytex-inference-candle/src/model.rs:155-185 | a printed section, whatever follows it, is read to its last byte and gives the map of its pairs, later ones winning, unless some value nests too deep |
| GgufPrint.HeaderDecides | crates/crytex-inference-candle/src/model.rs:155-169 | only sections of versions 1 to 3 that begin with the magic number, in either byte order, are accepted; otherwise the first thing that is wrong is reported |
| GgufReader.Reader.ReadExact | crates/crytex-inference-candle/src/model.rs:257-313 | the next n bytes, or an error at the end of the file |
| GgufReader.Reader.ReadLe | crates/crytex-inference-candle/src/model.rs:257-313 | a little-endian number of the given width, with the position after it |
| GgufReader.Reader.ReadLen | crates/crytex-inference-candle/src/model.rs:235-240 | a length of 4 bytes in version 1 and of 8 after it |
| GgufReader.Reader.ReadString | crates/crytex-inference-candle/src/model.rs:242-255 | the decoded text without trailing NULs, made valid, or the decoder's error |
| GgufReader.Reader.ReadArray | crates/crytex-inference-candle/src/model.rs:217-225 | the meanings of the decoded elements, in order |
| GgufReader.Reader.ReadValue | crates/crytex-inference-candle/src/model.rs:187-233 | the meaning of what the decoder finds, the position after it, or the decoder's error; a value of the type asked for, and for numbers and flags one in the range of its type whose print lies where it was read |
| GgufReader.Reader.ReadEntry | crates/crytex-inference-candle/src/model.rs:174-176 | one key and value |
| GgufReader.Reader.ReadEntries | crates/crytex-inference-candle/src/model.rs:172-178 | the map of the decoded entries |
| GgufReader.Reader.ReadMetadata | crates/crytex-inference-candle/src/model.rs:155-185 | the map of the decoded section, the position after it, or the decoder's error |
| JsonRepair.NextNonWhitespaceIsClosing | crates/crytex-agents/src/json.rs:67-73 | whether the next character that is not white space closes a container |
| JsonRepair.RemoveTrailingCommas | crates/crytex-agents/src/json.rs:26-65 | the loop computes the recursive removal of trailing commas |
| JsonRepair.QuotedKeyAfterSeparator | crates/crytex-agents/src/json.rs:162-189 | finds a bare key after a separator if and only if one starts there and a colon follows |
| JsonRepair.QuoteUnquotedKeys | crates/crytex-agents/src/json.rs:117-160 | the loop computes the recursive quoting of bare keys |
| JsonRepair.InsertMissingCommas | crates/crytex-agents/src/json.rs:75-111 | the loop computes the recursive insertion of commas |
| JsonRepair.CloseUnclosedContainers | crates/crytex-agents/src/json.rs:199-237 | the loop appends the closing quote and the awaited closing characters, innermost first |
| JsonTokenPasses.ScanBody | crates/crytex-agents/src/json.rs:33-46 | inside a string literal no pass changes anything |
| JsonTokenPasses.DropTrailingOnText | crates/crytex-agents/src/json.rs:26-73 | on the print of any tokens, removal drops exactly the commas that come before a closing token |
| JsonTokenPasses.AddCommasOnText | crates/crytex-agents/src/json.rs:75-115 | on the print of any tokens, insertion puts a comma before exactly the string literals that follow the end of a value |
| JsonKeyPass.QuoteKeysOnText | crates/crytex-agents/src/json.rs:117-197 | on the print of any tokens, quoting turns exactly the identifier-like words between a separator and a colon into strings |
| JsonKeyPass.ClosersOnText | crates/crytex-agents/src/json.rs:199-237 | on the print of tokens that nest, exactly the awaited closing tokens are appended |
| JsonValues.TokensNest | crates/crytex-agents/src/json.rs:205-227 | the tokens of a JSON value leave nothing open |
| JsonRecovery.JsonIsFixed | crates/crytex-agents/src/json.rs:14-24 | every layout of every JSON value is a fixed point of all four passes |
| JsonDamage.DamageRepairedIff | crates/crytex-agents/src/json.rs:14-24 | take any value in any layout; cut off closing tokens at the end, drop commas before strings, leave keys bare and add trailing commas, in any combination: the chain gives back a layout of the value, with the same white space, if and only if no comma was added before a closing token that was cut off and no key was left bare where its comma was dropped |
| JsonDamage.CompactRepairedIff | crates/crytex-agents/src/json.rs:14-24 | without white space the value's own print comes back, under the same condition |
| JsonDamage.CommaBeforeCutBracket | crates/crytex-agents/src/json.rs:14-24 | `[1,` for `[1,]` becomes `[1,]`, which is no layout of the value |
| JsonDamage.BareKeyWithoutComma | crates/crytex-agents/src/json.rs:146-153 | in any value, a key left bare without its comma stays so |
| JsonDamage.BareSecondKey | crates/crytex-agents/src/json.rs:146-153 | `{"a":1 b:2}` for `{"a":1,"b":2}` does not come back |
| JsonDamage.TouchingStays | crates/crytex-agents/src/json.rs:162-189 | a bare key that touches the number or literal before it reads as one longer word, and no pass takes it apart |
| JsonDamage.ChainOnTokens | crates/crytex-agents/src/json.rs:14-24 | on tokens that nest as a truncated value does, the chain is the passes on tokens with the missing closing tokens appended, and keeps the white space |
| JsonLexing.PrintIsUnambiguous | crates/crytex-agents/src/json.rs:33-62 | no text is the print of two token sequences, so a repaired text is a layout of a value or is not |
| JsonRecovery.OnlyTrailingCommas | crates/crytex-agents/src/json.rs:26-73 | removal alone undoes added trailing commas in every layout |
| JsonRecovery.OnlyBareKeys | crates/crytex-agents/src/json.rs:117-197 | quoting alone undoes dropped quotes on identifier-like keys in every layout |
| JsonRecovery.OnlyMissingCommas | crates/crytex-agents/src/json.rs:75-115 | insertion alone undoes commas dropped before strings in every layout |
| JsonRecovery.ClosersRecovered | crates/crytex-agents/src/json.rs:199-237 | on a truncated layout exactly the closing tokens that were cut off are appended |
| JsonAnyText.TrailingKeepsLiterals | crates/crytex-agents/src/json.rs:26-65 | on any text, the closed string literals stay as they are, in order |
| JsonAnyText.MissingKeepsLiterals | crates/crytex-agents/src/json.rs:75-111 | on any text, the closed string literals stay as they are, in order |
| JsonAnyText.AppendingKeepsLiterals | crates/crytex-agents/src/json.rs:199-237 | closing containers keeps the closed string literals |
| JsonAnyText.RemovalIdempotentIff | crates/crytex-agents/src/json.rs:55-58 | removing twice differs from removing once exactly when a dropped comma follows a comma |
| JsonAnyText.DoubledCommaStays | crates/crytex-agents/src/json.rs:55-58 | `,,]` becomes `,]`, which becomes `]` |
| JsonAnyText.ClosesIff | crates/crytex-agents/src/json.rs:229-234 | afterwards nothing is open, exactly when the text does not end on a pending escape |
| JsonAnyText.PendingEscapeStaysOpen | crates/crytex-agents/src/json.rs:229-231 | a quote and a backslash stay open after a quote is appended |
| JsonAnyText.ClosersShortest | crates/crytex-agents/src/json.rs:229-234 | no suffix that closes everything is shorter |
| JsonAnyText.ClosersOneMore | crates/crytex-agents/src/json.rs:205-234 | what one more character of any text does to what is appended: it opens, strikes off the closing character awaited first, or, mismatched or inside a string, changes nothing |
| JsonAnyText.MismatchStaysOpen | crates/crytex-agents/src/json.rs:224-226 | `[}` is closed with `]` and still does not balance without it |
| JsonAnyText.ClosingIdempotentIff | crates/crytex-agents/src/json.rs:199-237 | a second application appends nothing, exactly when the text does not end on a pending escape |
| Compression.CompressKeepsFacts | crates/crytex-compress/src/token_economy.rs:552-570 | every required fact of the text is in the compressed text, whatever the budget |
| Compression.CompressIsCut | crates/crytex-compress/src/token_economy.rs:552-570 | the compressed text is the occurring facts, one to a line, then on a line of its own the longest front part of the text that four bytes per token leave room for |
| Compression.CutIsUnique | crates/crytex-compress/src/token_economy.rs:552-570 | there is one such text |
| Compression.CutWithoutFacts | crates/crytex-compress/src/token_economy.rs:558-564 | with no fact in the text it is the front of the text, of exactly the allowed length if there is that much |
| Compression.OccurringAdds | crates/crytex-compress/src/token_economy.rs:553-557 | the occurring facts of two lists are those of the first and then those of the second |
| Compression.ContainsIff | crates/crytex-compress/src/token_economy.rs:555-555 | a text contains a part if and only if it is something, the part and something more |
| OrderedCache.ExpireIsDrop | crates/crytex-compress/src/token_economy.rs:233-245 | expired entries are a prefix of the queue, and removing them keeps map and deque in agreement |
| OrderedCache.DropsExactlyExpired | crates/crytex-compress/src/token_economy.rs:233-245 | dropping from the front drops every expired entry and no other |
| OrderedCache.EvictIsLastFew | crates/crytex-compress/src/token_economy.rs:225-231 | eviction ends, is first in first out, and stops as soon as there is room for one |
| OrderedCache.EvictionEndsIff | crates/crytex-compress/src/token_economy.rs:225-231 | the eviction loop comes to a round that leaves room if and only if `max_entries` is at least 1 |
| OrderedCache.UpdateIsTouch | crates/crytex-compress/src/token_economy.rs:170-176 | a known key keeps its place in the queue |
| OrderedCache.AppendJoinsAtBack | crates/crytex-compress/src/token_economy.rs:188-189 | a new key joins at the back |
| ContextCache.PutRefinesQueue | crates/crytex-compress/src/token_economy.rs:157-191 | `put` on map and deque is `put` on one queue by age of at most `max_entries` entries, and keeps it one |
| ContextCache.HealthySize | crates/crytex-compress/src/token_economy.rs:134-143 | map and deque have the same size, at most `max_entries` |
| ContextCache.StepHealthy | crates/crytex-compress/src/token_economy.rs:157-202 | every `put` and `get` with a clock that does not go back keeps agreement, size and order by age |
| ContextCache.LiveEntryOrigin | crates/crytex-compress/src/token_economy.rs:157-202 | after any run a live entry is as the last `put` that created it made it, producers aside |
| ContextCache.FullGetReturnsContent | crates/crytex-compress/src/token_economy.rs:193-202 | after any run a full `get` returns the content of the `put` that created the live entry |
| ContextProducers.ShortGetReturnsFront | crates/crytex-compress/src/token_economy.rs:166-172 | the short text of a live entry is the front of that content, of four characters for every three tokens estimated |
| ContextProducers.ProducersAreAgents | crates/crytex-compress/src/token_economy.rs:173-188 | after any run a live entry lists exactly the agents of the successful puts of its key from the one that created it on, each once, in the order of their first put |
| ContextPuts.PutEffect | crates/crytex-compress/src/token_economy.rs:157-191 | one put on the entries, oldest first: the expired ones, a front part, leave; then nothing if an estimate fails, a producer for a known key, or the fewest oldest entries leave and the new one comes last |
| SharedContexts.SharedContext.RemoveExpired | crates/crytex-compress/src/token_economy.rs:233-245 | removes exactly the expired keys from map and deque |
| SharedContexts.SharedContext.EvictIfNeeded | crates/crytex-compress/src/token_economy.rs:225-231 | drops from the front until there is room |
| SharedContexts.SharedContext.Put | crates/crytex-compress/src/token_economy.rs:157-191 | the new state, the returned entry or failed estimate, and the hit count; also for `max_entries == 0` whenever it does not come to evicting |
| SharedContexts.SharedContext.Get | crates/crytex-compress/src/token_economy.rs:193-202 | the original or the compressed text of a live entry, after removing expired ones |
| Offload.FindFirst | crates/crytex-compress/src/ccr.rs:30-30 | the search returns the first occurrence, or there is none |
| Offload.MarkerParses | crates/crytex-compress/src/ccr.rs:29-37 | parsing the marker of any artifact gives exactly its key, whatever the fact preview holds |
| Offload.ParsedKey | crates/crytex-compress/src/ccr.rs:29-37 | a text has a key exactly when it mentions `ccr:`; the key starts after the first mention and ends before white space, a closing bracket or the end |
| Offload.MarkerKeepsPreview | crates/crytex-compress/src/token_economy.rs:596-612 | every previewed fact occurs in the marker |
| Offload.DecimalReadsBack | crates/crytex-compress/src/token_economy.rs:324-330 | a printed number reads back as itself and has no leading zero |
| Offload.SplitAtSpace | crates/crytex-compress/src/token_economy.rs:597-598 | what comes after white space is split by itself |
| Offload.SplitWord | crates/crytex-compress/src/token_economy.rs:597-598 | a text without white space is one word |
| Offload.SkipSpace | crates/crytex-compress/src/token_economy.rs:597-598 | white space at the front makes no difference |
| Offload.FactWordsAdd | crates/crytex-compress/src/token_economy.rs:599-599 | each word is a fact for itself, in order |
| Offload.FactWordIff | crates/crytex-compress/src/token_economy.rs:610-612 | if it consists of upper-case letters, digits and underscores and has one of the last |
| Offload.PreviewIsFirstEight | crates/crytex-compress/src/token_economy.rs:600-601 | the first eight facts are previewed, or all if there are fewer |
| CcrStores.RetrieveFrom | crates/crytex-compress/src/ccr.rs:41-46 | the content under the key that the marker parses to |
| CcrStores.ArtifactOffload.Offload | crates/crytex-compress/src/token_economy.rs:311-346 | a small artifact is its own marker and is not stored; a large one is stored under its key and reported by its marker |
| CcrStores.StoreHoldsLast | crates/crytex-compress/src/token_economy.rs:327-328 | after any offloads a key holds the last large content that has it |
| CcrStores.MarkerRetrieves | crates/crytex-compress/src/ccr.rs:41-46 | after any offloads a marker retrieves the last content stored under its key |
| CcrStores.MarkersRetrieveOwnIff | crates/crytex-compress/src/token_economy.rs:311-346 | after a run every emitted marker retrieves its own content if and only if no two different large contents share a key |
| CcrStores.CollidingMarker | crates/crytex-compress/src/token_economy.rs:327-336 | with two large contents under one key the first marker retrieves the second content |
| TokenEconomy.TokenEconomyEngine.CompressMessage | crates/crytex-compress/src/token_economy.rs:465-482 | a message estimated at no more than 256 tokens stays; a longer one keeps its role, is cut to its facts and a front of 512 bytes less the facts, and is put into the shared context, if there is one; or the estimate fails |
| TokenEconomy.TokenEconomyEngine.CompressMessages | crates/crytex-compress/src/token_economy.rs:453-463 | the same for all messages in order, up to the first that fails |
| TokenEconomy.TokenEconomyEngine.OffloadArtifacts | crates/crytex-compress/src/token_economy.rs:415-419 | one report per artifact, in order, and the store after all of them or up to the first that fails |
| TokenEconomy.TokenEconomyEngine.Assemble | crates/crytex-compress/src/token_economy.rs:421-450 | the messages with one more per artifact, and the report on them, or an estimate fails |
| TokenEconomy.TokenEconomyEngine.Optimize | crates/crytex-compress/src/token_economy.rs:404-451 | succeeds exactly when every estimate does, with the report that `TokenReports` spells out; however it ends, what the store and the shared context hold |
| TokenReports.ReportedMessage | crates/crytex-compress/src/token_economy.rs:465-482 | in the report a message estimated at no more than 256 tokens is unchanged; a longer one has its role, and as content its facts and the longest front that fits 512 bytes |
| TokenReports.LongMessageIsCut | crates/crytex-compress/src/token_economy.rs:465-482 | a longer message of more than 512 characters without required facts is cut to its first 512 |
| TokenReports.EstimatesAdd | crates/crytex-compress/src/token.rs:21-25 | messages are estimated by the sum over the messages |
| TokenReports.EstimateOfOne | crates/crytex-compress/src/token.rs:14-18 | and each by its role, its content and 4 more |
| TokenReports.ReportFigures | crates/crytex-compress/src/token_economy.rs:408-438 | saved and reported tokens add up to those asked for, or nothing is saved; the ratio is their quotient; the quality passes if and only if nothing is missing and the prompt has not grown |
| TokenReports.ReportedArtifact | crates/crytex-compress/src/token_economy.rs:311-343 | a small artifact is listed whole and not stored; a large one is stored under its key, and its marker, which is what is estimated, retrieves it |
| TokenReports.MissingAdds | crates/crytex-compress/src/token_economy.rs:572-578 | facts are missing each for itself, in order |
| TokenReports.ReportTextAdds | crates/crytex-compress/src/token_economy.rs:523-527 | the text searched for facts is the contents of the messages, one to a line |
| TokenEconomy.PresentFactSurvives | crates/crytex-compress/src/token_economy.rs:404-483 | a required fact of a message, of a small artifact or of a large one's preview is in the text reported on and not listed missing |
| TokenEconomy.AllPresentNoneMissing | crates/crytex-compress/src/token_economy.rs:517-541 | when all required facts are of that kind, none is missing and the loss is 0 |
| TokenEconomy.LossIsShareMissing | crates/crytex-compress/src/token_economy.rs:580-586 | the loss is 0 exactly when nothing is missing, and lies between 0 and 1 |
| TokenEconomy.MissingFacts | crates/crytex-compress/src/token_economy.rs:572-578 | exactly the required facts that do not occur |
| TokenEconomy.PlanSharesWindow | crates/crytex-compress/src/token_economy.rs:78-109 | a plan exists exactly when the fixed parts fit; half of the rest is for retrieval, a third for artifacts, and all parts add up to the window, saturation aside |
| TokenEconomy.OverfullPlan | crates/crytex-compress/src/token_economy.rs:92-98 | a prompt that fills the largest window leaves room for one more token |
| DocWindows.NextCharBoundary | crates/crytex-doc/src/lib.rs:296-301 | the first character boundary from the index on |
| DocWindows.PreviousCharBoundary | crates/crytex-doc/src/lib.rs:303-308 | the last character boundary up to the index |
| DocWindows.BoundaryNear | crates/crytex-doc/src/lib.rs:296-308 | in UTF-8 a boundary lies at most three bytes away on either side |
| DocWindows.ChunkDocText | crates/crytex-doc/src/lib.rs:259-294 | the loop ends; windows of at most 1203 bytes from start to end, overlapping by 160 to 163 bytes, cut at characters, and the chunks of those that are not blank |
| DocWindows.WindowsAreText | crates/crytex-doc/src/lib.rs:270-270 | every window and every overlap is well-formed UTF-8 |
| DocWindows.RejoiningRestores | crates/crytex-doc/src/lib.rs:268-292 | the windows without their overlaps give back the text |
| DocWindows.EveryByteCovered | crates/crytex-doc/src/lib.rs:268-292 | every byte lies in a window |
| DocWindows.FewWindows | crates/crytex-doc/src/lib.rs:268-292 | at most 1 + length / 1037 windows |
| DocChunks.WindowSizes | crates/crytex-doc/src/lib.rs:269-292 | windows have at most 1203 bytes, all but the last at least 1200, and share 160 to 163 with the next |
| DocWindows.WindowsDetermined | crates/crytex-doc/src/lib.rs:268-292 | the stated shape leaves no choice: the text determines the windows |
| DocWindows.ChunksDetermined | crates/crytex-doc/src/lib.rs:259-294 | and with them the chunks |
| DocChunks.ChunkingIs | crates/crytex-doc/src/lib.rs:269-287 | one chunk for every window that is not blank, in order: numbered from 0, with the window's trimmed text and the lines it starts and ends on |
| DocChunks.CountNewlines | crates/crytex-doc/src/lib.rs:310-316 | the line of a byte is one more than the number of line feeds before it |
| DocWindows.LinesInOrderIff | crates/crytex-doc/src/lib.rs:279-280 | a chunk's lines are in order exactly when its window starts within the stated number of lines |
| DocWindows.LinesOutOfOrder | crates/crytex-doc/src/lib.rs:229-238 | an HTML page on one source line, with a break written as a character reference: its second chunk starts on line 2 and ends on line 1 |
| Indexers.VectorStore.CreateCollection | crates/crytex-core/src/indexer.rs:440-451 | creates a missing collection empty |
| Indexers.VectorStore.Upsert | crates/crytex-core/src/indexer.rs:456-468 | appends to a collection |
| Indexers.VectorStore.CreateSparseCollection | crates/crytex-core/src/indexer.rs:505-516 | creates a missing sparse collection, if supported |
| Indexers.VectorStore.UpsertWithSparse | crates/crytex-core/src/indexer.rs:518-530 | appends to a sparse collection, if supported |
| Indexers.VectorStore.DeleteByFilter | crates/crytex-core/src/indexer.rs:564-594 | deletes the points of one project and path from both collections of a kind; an error exactly when neither exists |
| Indexers.ProjectIndexer.EmbedAll | crates/crytex-core/src/indexer.rs:235-239 | the vectors of all chunks in order, or a failure if any chunk has none |
| Indexers.ProjectIndexer.RemoveFile | crates/crytex-core/src/indexer.rs:146-166 | deletes a file's points everywhere; a missing collection is no error |
| Indexers.ProjectIndexer.UpsertChunks | crates/crytex-core/src/indexer.rs:220-289 | sparse if the embedder and the store allow, dense otherwise, and how it fails; the points are those of `IndexPoints.UpsertedPoints` |
| Indexers.ProjectIndexer.IndexFile | crates/crytex-core/src/indexer.rs:104-142 | the store after it, however it ends, and the reported counts |
| Indexers.ProjectIndexer.IncrementalReindex | crates/crytex-core/src/indexer.rs:169-187 | changed files in order up to the first failure, then removed ones |
| Indexers.ProjectIndexer.Index | crates/crytex-core/src/indexer.rs:56-97 | the store after walking the files, up to the first failure, and the number of files and chunks |
| ChunkIndex.SlashedIff | crates/crytex-core/src/indexer.rs:115-115 | a path is unchanged exactly when it has no backslash |
| ChunkIndex.RemovedHeld | crates/crytex-core/src/indexer.rs:146-166 | removing a file empties it on every shelf and touches no other project or path |
| ChunkIndex.UpsertedOn | crates/crytex-core/src/indexer.rs:220-289 | all chunks go, once and in order, to the shelf of the first chunk's kind, or nothing is stored and the error is returned |
| ChunkIndex.UpsertedHeld | crates/crytex-core/src/indexer.rs:220-289 | storing a file's chunks adds them to that file and touches no other |
| IndexPoints.UpsertedPoints | crates/crytex-core/src/indexer.rs:220-289 | the i-th new point is the i-th chunk, under the given file, with the vector of that chunk's text, and its sparse weights if and only if it goes to a sparse collection; all earlier points stay, and nothing is added when some embedder has no answer |
| IndexRuns.FileSucceedsIff | crates/crytex-core/src/indexer.rs:104-142 | `index_file` succeeds exactly when the file can be read, chunked and embedded |
| IndexRuns.ChangedSucceedsIff | crates/crytex-core/src/indexer.rs:176-178 | the changed files succeed exactly when each does |
| IndexRuns.AppliedRepresents | crates/crytex-core/src/indexer.rs:99-187 | every operation, failing ones included, keeps the store in step with what each file last came to hold |
| IndexRuns.RunRepresents | crates/crytex-core/src/indexer.rs:99-187 | after any run on slash-separated paths every collection holds, for every project and path, exactly the chunks the file was last given, with the project as it was then, once each and in order |
| IndexPoints.RunHolds | crates/crytex-core/src/indexer.rs:99-289 | after any run on slash-separated paths, the chunks a file was last given lie in order, with their own vectors and weights, on the one collection that receives them, and nothing of the file anywhere else |
| IndexRebuild.WalkedAllHeld | crates/crytex-core/src/indexer.rs:67-94 | `index` adds to every walked file its chunks and touches nothing else |
| IndexPoints.IndexAddsReported | crates/crytex-core/src/indexer.rs:56-97 | a successful `index` adds exactly as many points as it reports chunks |
| IndexPoints.TallyOfOne | crates/crytex-core/src/indexer.rs:79-93 | a file counts, with all its chunks, if it can be read and has some |
| IndexPoints.TalliesAdd | crates/crytex-core/src/indexer.rs:67-97 | the counts of two walks add up |
| IndexRebuild.RebuildAgrees | crates/crytex-core/src/indexer.rs:56-187 | after a run that leaves every file with the chunks it has in the final tree, each collection holds for the project the points `index` puts into an empty store |
| IndexRebuild.RebuildAgreesIff | crates/crytex-core/src/indexer.rs:56-187 | the kept index agrees with a rebuilt one if and only if every file of the tree was last given the chunks it has there, and every other file none |
| IndexPitfalls.StaleNeighbour | crates/crytex-core/src/indexer.rs:176-181 | two files indexed as they are added: the first does not tell of the second, as it does after a rebuild |
| IndexRebuild.IndexExactIff | crates/crytex-core/src/indexer.rs:67-94 | `index` leaves a file's chunks there once if and only if none were there before |
| IndexPitfalls.IndexedTwice | crates/crytex-core/src/indexer.rs:67-94 | a project indexed twice holds a file twice |
| IndexRebuild.IndexFileExactIff | crates/crytex-core/src/indexer.rs:115-136 | `index_file` leaves exactly the file's chunks unless the path has a backslash, there are no chunks, and old ones were held |
| IndexPitfalls.EmptiedWithBackslash | crates/crytex-core/src/indexer.rs:122-125 | a file emptied under a path with a backslash keeps its chunk |
| IndexRebuild.RemoveUndoesIndexIff | crates/crytex-core/src/indexer.rs:146-154 | `remove_file` takes back what `index_file` stored under the same path unless it has a backslash and there were chunks |
| IndexPitfalls.RemovedWithBackslash | crates/crytex-core/src/indexer.rs:146-154 | a file removed under a path with a backslash keeps its chunk |
| HarnessRuns.BoundedConcurrency | crates/crytex-bench/src/harness.rs:66-84 | in every reachable state at most `max_concurrency` cases are running, at most one if that is 0, and the unused permits are the rest |
| HarnessRuns.BoundReached | crates/crytex-bench/src/harness.rs:66-84 | any number of cases up to that bound, and up to the number of cases, is running in some reachable state |
| HarnessRuns.StoredInOrder | crates/crytex-bench/src/harness.rs:154-163 | in every reachable state what is stored and published is a prefix of: the run, each result in order, the event |
| HarnessRuns.OutcomeIsSequential | crates/crytex-bench/src/harness.rs:58-166 | however cases interleave, each finishes once and the outcome is that of running them one by one; a success leaves the full log, a result that cannot be stored the log before it, any other error nothing |
| Harness.Sequential | crates/crytex-bench/src/harness.rs:86-123 | succeeds if and only if every case ends, is scored and is stored; result i is that of case i |
| Harness.WhichError | crates/crytex-bench/src/harness.rs:86-157 | which error is returned: the first panic, else the first case that failed or could not be scored with its reason, else the run or the first result that could not be stored |
| Harness.FirstScoringError | crates/crytex-bench/src/harness.rs:97-99 | the error returned is that of the first case that cannot be scored |
| HarnessRuns.NoDeadlock | crates/crytex-bench/src/harness.rs:71-90 | a reachable state allows a step exactly until the run is done |
| HarnessRuns.RunsEnd | crates/crytex-bench/src/harness.rs:58-166 | a run of n cases is done after at most 5n + 4 steps |
| HarnessRuns.StepKeeps | crates/crytex-bench/src/harness.rs:58-166 | every step keeps permits, tasks paired with cases, and log in step with the phase |
| HarnessConclusion.DefaultBenchmarkHarness.ScoreAll | crates/crytex-bench/src/harness.rs:92-141 | the scored results in case order with their totals, or the first error |
| HarnessConclusion.DefaultBenchmarkHarness.StoreResults | crates/crytex-bench/src/harness.rs:155-157 | results are stored in order up to the first that cannot be |
| HarnessConclusion.DefaultBenchmarkHarness.Conclude | crates/crytex-bench/src/harness.rs:86-166 | returns the sequential outcome and leaves its log |
| HarnessConclusion.Summarize | crates/crytex-bench/src/harness.rs:125-141 | passed and failed add up to all cases; the pass rate is between 0 and 1, and 1 exactly when all passed |
| HarnessConclusion.SummaryOfOne | crates/crytex-bench/src/harness.rs:92-123 | the summary of one case is its latency, its tokens or none, and whether it passed |
| HarnessConclusion.SummariesAdd | crates/crytex-bench/src/harness.rs:92-141 | cases, passes, tokens and total latency of two lists of results add up; mean and rate times the number of cases give them back |
| HarnessConclusion.SummaryIgnoresOrder | crates/crytex-bench/src/harness.rs:92-141 | the order of the results makes no difference |
| Dedup.HammingDistance | crates/crytex-compress/src/dedup.rs:67-70 | the size of the set of bits that differ |
| Dedup.Metric | crates/crytex-compress/src/dedup.rs:67-70 | the distance is symmetric and obeys the triangle inequality |
| Dedup.Simhash | crates/crytex-compress/src/dedup.rs:43-65 | a bit is set if and only if more hashes set it than not |
| Dedup.SimhashIsMedian | crates/crytex-compress/src/dedup.rs:41-65 | no fingerprint has a smaller total distance to the hashes |
| Dedup.SimhashOfTwo | crates/crytex-compress/src/dedup.rs:58-64 | a tie clears the bit: of two hashes exactly the common bits are set |
| Dedup.AnyNear | crates/crytex-compress/src/dedup.rs:34-39 | whether any kept fingerprint is within the threshold |
| Dedup.SelectUniqueIndices | crates/crytex-compress/src/dedup.rs:72-90 | increasing indices: an item is selected if and only if it is farther than the threshold from every selected one before it |
| Dedup.SelectionUnique | crates/crytex-compress/src/dedup.rs:72-90 | that condition has one solution |
| Dedup.SelectedAreFar | crates/crytex-compress/src/dedup.rs:74-75 | selected items are pairwise farther apart than the threshold |
| Dedup.SelectionCovers | crates/crytex-compress/src/dedup.rs:74-75 | every item is within the threshold of a selected one that is not later |
| Dedup.SameKeeperIsClose | crates/crytex-compress/src/dedup.rs:74-75 | items with the same keeper are within twice the threshold |
| Dedup.PackingBound | crates/crytex-compress/src/dedup.rs:76-90 | no set of items pairwise farther apart than twice the threshold is larger than the selection |
| Dedup.AllSelectedIff | crates/crytex-compress/src/dedup.rs:76-90 | everything is selected if and only if all items are pairwise far |
| Dedup.SelectionIsStable | crates/crytex-compress/src/dedup.rs:76-90 | selecting among the selected items changes nothing |
| Dedup.CountUniqueSimhash | crates/crytex-compress/src/sizing.rs:170-180 | the number of items `select_unique_indices` selects at threshold 3 |
| Dedup.Jaccard | crates/crytex-compress/src/dedup.rs:19-30 | between 0 and 1; 0 exactly for disjoint sets, 1 exactly for equal ones that are not empty; times the size of the union it is the size of the intersection |
| Sizing.ComputeUniqueBigramCurve | crates/crytex-compress/src/sizing.rs:119-140 | each value is the number of different bigrams of that prefix of the items |
| Sizing.IsBigramIff | crates/crytex-compress/src/sizing.rs:129-135 | the bigrams of an item are its adjacent words, or its only word with the empty one |
| Sizing.CurveIsNonDecreasing | crates/crytex-compress/src/sizing.rs:119-140 | the curve never falls |
| Sizing.FlatIff | crates/crytex-compress/src/sizing.rs:94-96 | the curve is flat if and only if no item brings a bigram the first lacks |
| Sizing.FindKnee | crates/crytex-compress/src/sizing.rs:87-117 | none below three points or 0.05; 1 for a flat curve; otherwise one more than the first maximiser of the normalized gain, between 2 and n - 1 |
| Sizing.KneeIgnoresUnits | crates/crytex-compress/src/sizing.rs:97-116 | scaling or shifting the curve does not move the knee |
| Sizing.ValidateWithZlib | crates/crytex-compress/src/sizing.rs:182-210 | keeps a fifth more, up to the maximum, exactly when the ratios differ, some items are left, the maximum is not reached and a fifth is at least one; otherwise the same |
| Sizing.OptimalK | crates/crytex-compress/src/sizing.rs:43-85 | up to 8 items: all, up to the maximum; exactly when the result respects the maximum and when the minimum; with at most three clusters, their number between the bounds; otherwise the answer for the knee of the curve and the number of items far apart; everything, up to the maximum, when all items are pairwise far and the bias is not aggressive |
| Sizing.FromKnee | crates/crytex-compress/src/sizing.rs:67-84 | in whole numbers: the knee, or 3/10 of the items and 7/10 of those far apart when there is no knee, or both when more than 7/10 are far apart; times 3/2, 1 or 7/10, within the bounds; a fifth more when the ratios differ |
| Sizing.AnswerUnique | crates/crytex-compress/src/sizing.rs:63-84 | items, fingerprints and options leave one answer |

## Left out

- SharedContexts.SharedContext.EvictIfNeeded: requires `max_entries` of at least 1, because the loop would not end otherwise.
- SharedContexts.SharedContext.RemoveExpired: one reading of the clock per call, where the source reads it per entry.
- GgufReader.Reader.ReadExact: does not state the position after a failed read, which the library leaves open.
- Sizing.FindKnee: exact ratios instead of `f64`, here and in all other rates.
- The cycles `impact_set` reports (strongly connected components from petgraph), `cycle_for` and `public_api`.
- Removal of nodes and edges from the code graph, and edge confidence and spans.
- GGUF tensors, the model configuration taken from the metadata, and floating-point values beyond their bit patterns.
- `serde_json` parsing, markdown fences, and text cut off inside a string literal as a damage to recover from (closing it is covered for any text).
- Statistics of the shared context, the on-disk store and lock poisoning.
- Integer overflow of token sums and counters, except where the source saturates; 32-bit vote counts.
- Prompt-injection scanning, trimming and first lines of chunks, beyond their being functions of the text.
- The walk of a project, the building of its code graph beyond its being a function of the files, their errors, and the embedder's dimension query.
- Identifiers, timestamps and the other fields copied into a benchmark run; errors of loading the golden set.
- MD5, the slicing of text into 4-grams, words and zlib: the fingerprints, words and ratios are inputs.
- Searches in the vector store, network backends, training and generation.
