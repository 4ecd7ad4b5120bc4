# A verified model of the peer-to-peer file sync engine

The engine keeps, on every node, a map from paths to versions ordered by vector clocks, cuts files into
content-defined chunks stored under their own hash, compares chunk lists through Merkle trees, and lets
two nodes exchange manifests and missing chunks over a framed protocol. This project models that
behaviour in Dafny, from the loops that print an entry to whole runs of several nodes, and proves what it
guarantees. `dafny verify dfyconfig.toml` checks everything.

How the files fit together:

- `VectorClocks`, `ConflictPaths`, `CrdtStores`: clocks, fork names and the three store operations, as
  classes proved against functions on maps.
- `MergeOrder`: what any sequence of merges leaves, in any order.
- `Replication`, `Causality`: any number of nodes as a step system - edits, manifests sent at any time,
  entries arriving in any order, repeatedly or never - and the proof that clocks tell causal history.
- `TwoNodes`, `Quiescence`: with two nodes conflicts never cascade, and two sessions settle everything.
- `Survival`, `DataLoss`, `SessionLoss`: the content of an edit that nothing supersedes always stays
  readable somewhere exactly when there are at most two nodes; with three the newest edit can disappear
  from all of them, and complete sessions alone are enough for that.
- `Chunking`, `ChunkingLaws`, `MerkleTrees`: the chunker and the pruned tree comparison.
- `Text`, `EntryCodec`, `Manifests`, `Framing`: the text format, the manifest and journal, the frames.
- `Sha256`: block buffering and padding around an abstract compression function.
- `FileStores`, `SyncEngines`: chunks on disk, ingesting, deleting, restarting.
- `SessionPhases`, `SessionLoops`: what each phase of a session computes, and the loops that compute it.
- `SyncSessions`, `SessionRuns`, `SessionOutcomes`: two peers over two FIFO channels, in every
  interleaving, and what a complete session leaves behind.
- `SessionProgram`: the same session as the sequential program it is in the source.

Where results rest on hashing they hold for every hash function, and the inputs that would have to collide
are named among the data at hand: two interior nodes in the same position of two trees, a chunk and the
bytes stored under its hash, a blob of each of two stores, a block of each of two padded messages. Where
both halves are true they are stated: the tree comparison is exact if and only if no such pair of nodes
collides (`MerkleTrees.DiffIsExactOrCollision`).

The code and what is said about it differ in these places; the model follows the code (files and lines,
README.md included, are the repository's):

- Merging is called commutative, with identical state in any order (README.md:42-46, crdt_store.hpp:18-20).
  That holds for clocks, and for whole states when no versions conflict. In general it does not, not even
  for two causally ordered versions of one path (`MergeOrder.OrderedVersionsMayNotCommute`);
  `MergeOrder.MergeCommutesExactly` gives the exact condition, for any replica.
- No data is said ever to be lost (crdt_store.hpp:31-32, README.md:47-49). Where that means that the content
  of every edit that no later edit was based on can still be read somewhere, it holds exactly for at most
  two nodes (`DataLoss.LosesNothingExactly`). From three nodes on a relayed version whose clock was raised
  by conflicts can replace a newer one of the same writer (`DataLoss.LastEditCanVanish`), even if nodes only
  ever hold complete sessions, whatever order the manifests are in (`SessionLoss.SessionsAloneCanLose`).
  Clocks alone do not tell: after a conflict the local clock dominates a version whose content was not taken in.
- A version of an empty file is recorded but never written out, so bytes that were there stay on disk
  (`SyncEngines.CurrentExactly`, `SyncEngines.EmptiedFileKeepsOldBytes`).
- Files are said to be identical iff their roots match (README.md:28). That needs equally many chunks
  (`SyncEngines.RecordedRootsDecide`, `MerkleTrees.RootDecidesEquality`, `MerkleTrees.RootsNeedEqualCounts`).
- The hash is called SHA-256, but its length field counts the padding that precedes it, so it never
  applies the padding of section 5.1.1 of FIPS 180-4 (`Sha256.NeverFipsPadding`). Nothing is claimed
  about conformance to that standard.

## Model

| member | source | states |
|---|---|---|
| VectorClocks.VectorClock.Increment | vector_clock.cpp:5-7 | the counter of one node goes up by one, wrapping at 2^64; nothing else changes |
| VectorClocks.VectorClock.Merge | vector_clock.cpp:9-16 | the loop over the other clock leaves the pointwise maximum |
| VectorClocks.VectorClock.Compare | vector_clock.cpp:27-46 | the loop over the union of keys decides the causal order of all counters: equal, before, after or concurrent |
| VectorClocks.JoinIsLub | vector_clock.cpp:9-16 | a merge is the least upper bound of the causal order |
| VectorClocks.LeqTransitive | vector_clock.cpp:27-46 | happened-before is transitive |
| VectorClocks.LessByKey | vector_clock.cpp:31-40 | looking only at nodes recorded in one of the clocks decides the order over all nodes |
| VectorClocks.IncrementAdvances | vector_clock.cpp:5-7 | an increment moves the clock strictly forward if and only if the counter does not wrap |
| ConflictPaths.ConflictPathInjective | crdt_store.cpp:36-45 | for ids without dots, forks of different (path, writer) pairs never share a path |
| ConflictPaths.ConflictPathInjectiveInWriter | crdt_store.cpp:36-45 | for one path, different writers fork to different paths whatever the ids |
| ConflictPaths.ConflictPathLonger | crdt_store.cpp:36-45 | a fork is strictly longer than its source, so it never overwrites it |
| ConflictPaths.DottedIdCollides | crdt_store.cpp:36-45 | the condition is exact: every id with a dot shares a conflict path with another pair |
| ConflictPaths.ConflictPathKeepsExtension | crdt_store.cpp:36-45 | a fork of stem.ext is stem.conflict-node.ext, the dot being the last one; of a path without a dot it is the path with .conflict-node at its end |
| CrdtStores.CrdtStore.PutLocal | crdt_store.cpp:5-22 | records the given chunks, root and size as a version that is not deleted, written by this node, with the own counter of the clock it finds advanced by one |
| CrdtStores.CrdtStore.DeleteLocal | crdt_store.cpp:24-34 | field by field: the version is deleted, has no chunks, keeps the old root and size (zeros if there was none), is written by this node, and the own counter of the clock it finds is advanced by one |
| CrdtStores.CrdtStore.MergeRemote | crdt_store.cpp:47-102 | all five branches and their conflict path; NO_CHANGE exactly for equal clocks, KEPT_LOCAL exactly for a strictly older remote one, APPLIED_REMOTE exactly for a new path or a strictly newer one, CONFLICT_FORKED exactly for concurrent ones |
| CrdtStores.CrdtStore.LoadEntry | crdt_store.cpp:104-106 | installs an entry as it is |
| CrdtStores.MergeMeaning | crdt_store.hpp:23-32 | after a merge: the clock is the join, the content is the newer version's or the local one's, a conflict also leaves the remote version at its conflict path, and every other path is untouched |
| CrdtStores.MergeIdempotent | crdt_store.hpp:23-32 | merging the same entry again changes nothing and reports no conflict |
| CrdtStores.OutcomeMeaning | crdt_store.cpp:51-97 | which of the four outcomes a merge reports, in terms of the two clocks alone, each in both directions |
| CrdtStores.EditsAreNewer | crdt_store.cpp:5-34 | writes and deletes field by field; both make a version strictly newer than the one they find if and only if the counter does not wrap |
| MergeOrder.MergedClockIsLub | crdt_store.cpp:63-97 | after any sequence of merges the clock of a path no fork lands on is the least upper bound of the start and everything merged |
| MergeOrder.MergedDomain | crdt_store.cpp:51-57 | such a path is present exactly when it was or when a version of it was merged |
| MergeOrder.MergeOrderFixesClock | crdt_store.hpp:18-20 | any order and any repetition of the same merges gives the same clock, conflicts or not |
| MergeOrder.LinearMergeConverges | crdt_store.hpp:18-20 | when no two versions of a path are concurrent, any order and repetition gives the same whole state |
| MergeOrder.MergeCommutesExactly | README.md:42-46 | for any replica and any two versions of one path: the order in which they are merged does not matter if and only if a condition on what the replica holds is met. It is met whenever the local version covers one of them; where both replace what is there, if and only if they are equal or strictly ordered; where the local version conflicts with one or both, only in the listed cases. So the promise of README.md:42-46 and crdt_store.hpp:18-20 fails |
| MergeOrder.DifferentPathsCommute | crdt_store.cpp:47-98 | versions of different paths commute on every replica as long as neither's fork lands where the other is or forks to |
| MergeOrder.OrderedVersionsMayNotCommute | crdt_store.hpp:18-20 | a family of inputs on which even causally ordered versions do not commute: a replica whose version is older than one and in conflict with the other |
| MergeOrder.ConcurrentVersionsSurvive | crdt_store.cpp:79-97 | as-written versions reach a new replica in any order, any number of times: every version that no other supersedes can still be read, at its path or at its writer's conflict path |
| Replication.StepWellFormed | crdt_store.cpp:5-102 | in an N-node system every step keeps entries filed under their own path and written by a node |
| Replication.UserPathStep | crdt_store.cpp:47-98 | no step ever lowers the clock of a path no fork lands on, and only steps on that path touch it |
| Causality.EveryRunObserved | crdt_store.cpp:5-102 | every run of the system can be read with its edit histories; the histories never restrict it |
| Causality.CausalInvHolds | crdt_store.cpp:5-34 | in every N-node run each clock counts exactly the edits in its version's history, and no entry exceeds the writer's own count |
| Causality.FaithfulOrder | vector_clock.cpp:27-46 | such clocks are ordered if and only if the histories are contained |
| Causality.CompareDecidesHistory | README.md:91-96 | in every N-node run compare() is exact: BEFORE iff one history is strictly contained in the other, CONCURRENT iff each side holds an edit the other has not seen |
| Causality.EditsAreAsWritten | crdt_store.cpp:19-21 | a clock that counts an edit dominates that edit's whole clock, and no two edits of a path share a clock |
| Causality.UnsupersededEditSurvives | crdt_store.hpp:28-32 | the edits of any run, delivered to a new replica in any order and number, leave every edit that no later edit was based on |
| TwoNodes.TwoInvHolds | crdt_store.cpp:47-98 | the two-node invariant (chains per sender, copies are unaltered copies) holds in every state of every run with reordering, repetition and loss |
| TwoNodes.ConflictFacts | crdt_store.cpp:79-93 | with two nodes only user paths conflict, the forked version was written by the sender, and what the fork overwrites is older |
| TwoNodes.ConcurrentMeansDifferentWriters | crdt_store.cpp:86-89 | with two nodes concurrent versions have different last writers and conflict copies never conflict again |
| TwoNodes.ClocksOnlyGrow | crdt_store.cpp:63-97 | with two nodes no step lowers a stored clock: what replaces an entry, conflict copies included, has a strictly greater clock. About clocks only; for contents see Survival.UnsupersededEditKept |
| Survival.PairInvHolds | crdt_store.cpp:47-98 | in every watched two-node run every version shows the very edit that its writer's counter names, and a node whose own version has come to count an edit of the other that nothing supersedes holds a copy of it |
| Survival.UnsupersededEditKept | crdt_store.hpp:31-32 | in every two-node run the content of every edit that no later edit was based on can be read on one of the nodes, at its path or at its writer's conflict path |
| Survival.AloneKeeps | crdt_store.hpp:31-32 | the same for a node alone |
| Survival.UnsupersededIsLast | crdt_store.cpp:19-21 | an edit that nothing supersedes is its writer's last one of the path |
| DataLoss.MergeReplacesExactly | crdt_store.cpp:59-97 | one merge changes the content at a path if and only if it adopts, or forks onto that path, something else |
| DataLoss.MergeUncoversExactly | crdt_store.cpp:79-93 | one merge puts something else at a path without a dominating clock if and only if it forks onto a path whose clock is not below the remote one. About clocks: a dominating clock does not mean that the content was taken in |
| DataLoss.LastEditCanVanish | crdt_store.hpp:31-32 | for any three nodes among any number, any user path and any contents there is a run after which the content of the last edit is on no node |
| DataLoss.LosesNothingExactly | crdt_store.hpp:31-32 | 'no data is ever silently lost' - every edit that nothing supersedes stays readable somewhere, in every run - holds if and only if there are at most two nodes (ids without dots) |
| DataLoss.UnmarkedPathIsUserPath | crdt_store.cpp:36-45 | no fork can land on a path that does not contain '.conflict-', whatever the path and the id it is made from |
| DataLoss.ShortPathIsUserPath | crdt_store.cpp:36-45 | no fork can land on a path shorter than the conflict mark |
| SessionLoss.MergeAllWithConflict | network.cpp:206-234 | merging a whole manifest with one conflict, and no newer copy where it forks to, in any order: each path becomes what its entry alone makes of it, and the fork lands beside it |
| SessionLoss.SessionsAloneCanLose | crdt_store.hpp:31-32 | the last edit can be lost even if nodes only ever hold complete sessions: after four edits and six sessions between three nodes, with the manifests in any order, its content is on no node |
| SessionLoss.LosingHistoryExists | network.cpp:186-234 | for any three nodes among any number, any user path and any contents the ten events of that history are possible, one after the other, from empty stores |
| Quiescence.SessionReachable | network.cpp:186-240 | the metadata effect of a complete session is a piece of a run |
| Quiescence.FirstSession | network.cpp:199-234 | after one session both nodes agree on the existence and clock of every user path, and a rival's copy is never older than one's own |
| Quiescence.SecondSession | network.cpp:199-234 | a second session then makes key sets, clocks and conflict copies equal |
| Quiescence.TwoSessionsSettle | network.cpp:189-234 | from every reachable two-node state, two sessions without edits reach a fixed point: equal keys, equal clocks, identical conflict copies, and a third session reports only NO_CHANGE and changes nothing |
| Quiescence.ConflictSession | README.md:153-156 | the session that meets a conflict leaves each node its own version in place and an unaltered copy of the other's beside it, and never leaves the nodes settled |
| Chunking.RollingHash.Roll | chunker.cpp:13-19 | one step of the gear hash, mod 2^64 |
| Chunking.RollingHashIsWeightedSum | chunker.cpp:13-19 | the hash is the weighted sum of the table values since the last reset, mod 2^64, for any table |
| Chunking.LowBitsAreLocal | chunker.cpp:13-19 | its low k bits depend on the last k bytes only |
| Chunking.LowBitsAreRemainder | chunker.cpp:33 | masking the low k bits is the remainder mod 2^k |
| Chunking.Chunker.constructor | chunker.cpp:25-34 | the shifting loop computes floor(log2(avg_size)) (0 for 0) |
| Chunking.Chunker.Chunk | chunker.cpp:36-73 | the nested loops compute the chunks that the cut rule determines, for any sizes and any input; what the rule is in terms of the bytes is Chunking.CutsExactly |
| Chunking.CutLengthMeaning | chunker.cpp:50-66 | a chunk ends at the first position where the size or hash rule fires, or at the end |
| Chunking.CutsExactly | chunker.cpp:50-58 | a chunk that has grown to w is cut if and only if it has reached max_size, or has reached min_size and the sum of the table values of its bytes, each doubled once for every later byte, is divisible by 2^mask_bits (2^64 from 64 on) |
| ChunkingLaws.ChunksOfIsChunking | chunker.cpp:36-73 | the chunks are non-empty, contiguous, hashed, concatenate to the input, and each but the last ends exactly where the rule first fires |
| ChunkingLaws.ChunkEnds | chunker.cpp:45-71 | every chunk but the last satisfies that condition on its own bytes, and no shorter piece from its start does |
| ChunkingLaws.ChunkingIsUnique | chunker.cpp:36-73 | nothing else has these properties |
| ChunkingLaws.ChunksAreBounded | chunker.hpp:13-18 | no chunk is empty or longer than max(1, max_size) |
| ChunkingLaws.PrefixChunksUnchanged | chunker.hpp:13-15 | before an edit: every non-final chunk that ends in the common prefix is identical in both inputs |
| ChunkingLaws.SuffixChunksRealign | chunker.hpp:13-15 | after an edit: once both chunkings have a boundary at the same point of the common suffix, all later chunks are identical, with shifted offsets |
| ChunkingLaws.ContentRuleIgnoresStart | README.md:76-82 | past min_size the content rule does not depend on where the open chunk began: it asks whether the weighted sum of the last bytes alone is divisible by 2^mask_bits, which is why boundaries meet again |
| MerkleTrees.BuildSameShape | merkle_tree.cpp:3-17 | trees over equally long lists have the same shape, so the leaf/interior mismatch branch cannot be reached |
| MerkleTrees.BuildHashesChildren | merkle_tree.cpp:3-25 | the leaves carry the listed hashes in order, and every other node the hash of the 64 bytes of its two children's hashes |
| MerkleTrees.BuildRootHash | merkle_tree.cpp:12-16 | the root as a function of the list alone: the hash of the roots of its two halves |
| MerkleTrees.ToIntMeaning | merkle_tree.cpp:9 | a leaf index is the int that equals the position modulo 2^32 |
| MerkleTrees.UnequalCountsReportNothing | merkle_tree.cpp:46-51 | for different numbers of chunks nothing is reported |
| MerkleTrees.CollectDiffs | merkle_tree.cpp:27-43 | the recursion appends to the shared vector exactly the differences of the two subtrees, and its calls are counted |
| MerkleTrees.DiffLeafIndices | merkle_tree.cpp:45-54 | the result for any two trees, including empty and unequal ones |
| MerkleTrees.CountChanged | sync_engine.cpp:47-51 | the linear count of changed chunks is the number of positions that differ |
| MerkleTrees.ChangedMeaning | sync_engine.cpp:47-51 | the reference list holds exactly the differing positions, ascending |
| MerkleTrees.DiffIsExactOrCollision | merkle_tree.hpp:35-40 | every reported index has changed, in ascending order; the list is exactly the linear comparison's, and as long as its count, if and only if nowhere in the same position of the two trees two different strings of 64 bytes, each two child hashes in a row, have the same hash |
| MerkleTrees.LargeIndexIsMissed | merkle_tree.cpp:9 | the limit of 2^31 chunks is exact: a changed chunk at any index from 2^31 on, which does not fit the int, is never reported |
| MerkleTrees.RootDecidesEquality | README.md:27-29 | for equally many chunks equal lists have equal roots, and equal roots mean equal lists unless somewhere in the same position of the two trees two different strings of 64 bytes, each two child hashes in a row, have the same hash |
| MerkleTrees.RootsNeedEqualCounts | README.md:28 | the same number of chunks is needed: two leaves and their parent taken as the only leaf have one root |
| MerkleTrees.CeilLog2Meaning | merkle_tree.cpp:12-14 | the height function is the rounded-up logarithm |
| MerkleTrees.DiffIsLogarithmic | merkle_tree.hpp:11-13 | finding d changes among n chunks takes at most 1 + 2 * d * ceil(log2 n) calls |
| Text.StringReader.GetLine | entry_codec.cpp:28 | std::getline with a delimiter, as one loop over the text |
| Text.SplitJoin | entry_codec.cpp:57 | fields without the delimiter survive joining and splitting; an empty last field is dropped |
| Text.DecimalRoundTrip | entry_codec.cpp:32 | every 64-bit number survives printing and parsing |
| Text.DecimalShift | entry_codec.cpp:17 | numbers are printed in decimal, the last digit last and without leading zeros |
| Text.NumberIsRead | entry_codec.cpp:32 | a number is read up to the first character that is no digit; without a digit or from 2^64 on it is an error |
| Text.HexRoundTrip | sha256.cpp:118-123 | every digest survives hexadecimal printing and parsing |
| Text.HexOfByte | sha256.cpp:118-123 | two lower-case digits a byte, the upper four bits first |
| Text.HexOfOtherLength | entry_codec.cpp:4-10 | a text of another length is cut or filled up with zeros |
| Text.HexByteCases | entry_codec.cpp:7 | two digits of either case are one byte; a second character that is no digit is ignored, a first one is an error |
| Text.SortedKeysAscend | crdt_store.cpp:114-119 | maps and sets are listed in ascending order, character by character, a prefix first |
| Manifests.ReadDigest | entry_codec.cpp:4-10 | hex_to_digest, short and malformed input included |
| Manifests.ClockToWire | entry_codec.cpp:12-21 | the printing loop with its comma flag prints the clock in key order |
| Manifests.ClockFromWire | entry_codec.cpp:23-36 | the parsing loop, setting one counter per field and skipping fields without a colon |
| Manifests.EntryToLine | entry_codec.cpp:38-51 | the seven tab-separated fields |
| Manifests.LineToEntry | entry_codec.cpp:53-76 | splitting, padding to seven fields, parsing each |
| EntryCodec.ClockRoundTrip | entry_codec.cpp:12-36 | any clock whose ids are free of delimiters survives, the empty one included |
| EntryCodec.EntryRoundTrip | entry_codec.cpp:38-76 | an entry survives printing and parsing if and only if no path, writer or id contains a delimiter; tombstones, empty clocks and full 64-bit values included |
| EntryCodec.ParsedIsClean | entry_codec.cpp:53-76 | whatever is parsed is free of delimiters |
| EntryCodec.EntryLineFields | entry_codec.cpp:38-51 | where each field of an entry is in its line: path, 1 or 0 for deleted, size, root, clock, writer, hashes |
| EntryCodec.ClockTextPairs | entry_codec.cpp:12-21 | the clock field is one id:count for each node, in the order of the ids |
| EntryCodec.HashesTextNames | entry_codec.cpp:46-49 | the hashes field names the chunks in the order of the file |
| EntryCodec.ParsedFields | entry_codec.cpp:53-76 | which field of a line gives path, writer and the deleted flag, which is set by 1 alone; missing and empty fields give size 0, no counters, no chunks |
| EntryCodec.ClockFields | entry_codec.cpp:28-34 | a field without a colon counts for nothing, and of two for one node the later counts |
| Manifests.DigestByDigest | entry_codec.cpp:68-74 | hashes are read one by one in order; an empty name gives nothing, and one that cannot be read spoils the whole |
| Manifests.AllEntriesComplete | crdt_store.cpp:114-119 | all_entries lists exactly the stored entries |
| Manifests.AllEntriesInOrder | crdt_store.cpp:114-119 | in ascending order of their paths |
| Manifests.SerializeManifest | network.cpp:137-145 | the manifest text of a node |
| Manifests.ParseManifest | network.cpp:147-159 | the parsing loop drops the first line, skips empty lines and keeps the order |
| Manifests.ManifestRoundTrip | network.cpp:130-159 | parsing a serialized manifest gives exactly the entries in order, if and only if nothing in them contains a delimiter or newline |
| Manifests.ManifestLines | network.cpp:137-145 | the manifest's lines are the node's id and one line for each entry in order; the journal's are the entries' lines |
| Manifests.ParseLineByLine | network.cpp:153-158 | lines are read one by one in order; an empty line gives nothing, and one that cannot be read spoils the whole |
| Manifests.LoadJournal | sync_engine.cpp:17-25 | the loading loop installs every parsed entry, later lines winning |
| Manifests.LastLineWins | sync_engine.cpp:21-24 | of several lines for one path the last one stays |
| Manifests.RestartRestoresStore | sync_engine.cpp:17-32 | saving the journal and loading it gives back the same map, under exactly the same condition |
| Framing.LengthRoundTrip | network.cpp:108-113 | a big-endian 32-bit length survives if and only if it is below 2^32; otherwise its low 32 bits arrive |
| Framing.FrameRoundTrip | network.cpp:107-128 | a received frame is the one that was sent, and nothing after it is touched |
| Framing.HeaderLayout | network.cpp:107-114 | a header is four bytes of payload length, the first the most significant, and one byte of type |
| Framing.PartOfFrame | network.cpp:119-128 | no frame is received as long as a byte of it is missing |
| Framing.SerializeHashList | network.cpp:165-173 | the request text |
| Framing.HashListRoundTrip | network.cpp:165-184 | any list of requested hashes survives, the empty one included |
| Framing.HashListLines | network.cpp:165-173 | a request is one name a line, in the order of the list |
| Framing.ChunkDataRoundTrip | network.cpp:248-284 | the receiving loop recovers exactly the blobs that were sent, in order, using up the payload; fewer than 36 bytes after them are ignored |
| Framing.ChunkDataLayout | network.cpp:248-260 | a chunk on the wire is its 32-byte hash, four bytes of length, the first the most significant, and its bytes; chunks follow one another |
| Sha256.Sha256Ctx.Update | sha256.cpp:56-69 | after update the context depends only on all bytes so far, not on how they came |
| Sha256.Sha256Ctx.Pad | sha256.cpp:72-75 | the zero loop ends from every buffer length, at 56 |
| Sha256.Sha256Ctx.Close | sha256.cpp:76-82 | the length field completes the last block in place |
| Sha256.Sha256Ctx.Finish | sha256.cpp:71-92 | the digest of everything fed in |
| Sha256.HashInPieces | sha256.cpp:56-101 | a message fed in any pieces hashes like the message at once |
| Sha256.PaddedInjective | sha256.cpp:71-83 | the compressed blocks determine the message |
| Sha256.PaddedMeaning | sha256.cpp:71-83 | byte by byte what is compressed: the message, 0x80, zeros up to the last eight bytes of a block and not one block more, then eight times the number of bytes before, most significant byte first |
| Sha256.OutputMeaning | sha256.cpp:84-91 | the digest is the eight words in order, each most significant byte first |
| Sha256.InitialState | sha256.cpp:23-26 | the initial state is the first 32 bits of the fractions of the square roots of the first eight primes |
| Sha256.NeverFipsPadding | sha256.cpp:71-78 | for no message is the padding that of section 5.1.1 of FIPS 180-4: the length field counts the padding before it |
| Sha256.CollisionReduces | sha256.cpp:71-92 | if two different messages have one hash, a block of each padded message, with the chaining value that meets it, are different inputs of the compression function with one result; so the non-standard length field costs nothing as long as the length fields tell different padded lengths apart |
| Sha256.ShortLengthsTell | sha256.cpp:71-92 | below 2^61 - 128 bytes the length fields tell different padded lengths apart |
| FileStores.FileStore.PutChunk | file_store.cpp:16-22 | writes a chunk once: one already there is kept |
| FileStores.FileStore.Reassemble | file_store.cpp:35-42 | the appending loop, failing at a missing chunk |
| FileStores.ChunkPathInjective | file_store.cpp:12-14 | a chunk file name stands for one digest |
| FileStores.PutAllMeaning | file_store.cpp:16-22 | storing chunks loses and changes nothing, makes all of them present, adds nothing else and keeps every blob under its own hash |
| FileStores.ReassembleNeedsAll | file_store.hpp:22-24 | a file can be put together if and only if every chunk is there |
| FileStores.ReassembleStable | file_store.cpp:35-42 | what could be reassembled stays the same whatever is stored later |
| FileStores.StoresAgree | file_store.hpp:7-13 | two nodes that hold the chunks of a version read the same bytes, unless for one of its hashes they hold different blobs that both hash to it |
| FileStores.StoredChunksReadBack | file_store.cpp:16-42 | a stored version reads back as the bytes that were chunked, unless different bytes with the same hash are stored in place of one of its chunks |
| SyncEngines.SyncEngine.Restarted | sync_engine.cpp:7-25 | a restarted engine holds what its journal says |
| SyncEngines.SyncEngine.Materialize | sync_engine.cpp:85-89 | fails exactly when a version with content lacks a chunk, and otherwise writes that version's bytes; a version without content is not written |
| SyncEngines.WritesOnlyContent | sync_engine.cpp:85-89 | a deleted version and one without chunks write nothing, any other is what its path shows afterwards, and other paths are untouched |
| SyncEngines.SyncEngine.IngestFile | sync_engine.cpp:34-78 | the new version with its size, its chunks and the journal; every entry keeps its chunks, every version with content stays on disk byte for byte, and the file shows the new version if and only if its bytes are not empty or nothing but empty bytes was there |
| SyncEngines.CurrentExactly | sync_engine.cpp:85-87 | after materialize a version that is not deleted is what the disk shows if and only if it has chunks or nothing but empty bytes was there |
| SyncEngines.EmptiedFileKeepsOldBytes | sync_engine.cpp:85-87 | a file ingested with content and then emptied is recorded as empty and still shows what the first version reads back as: its old bytes, unless different bytes with the same hash were stored in place of one of its chunks |
| SyncEngines.SyncEngine.DeleteFile | sync_engine.cpp:80-83 | the recorded version is deleted, has no chunks, keeps the old root and size and has the own counter advanced by one; the journal is current, and the other versions keep their chunks and, where they have content, their files |
| SyncEngines.IngestReadsBack | sync_engine.cpp:65-74 | the recorded hashes reassemble to exactly the ingested bytes, now and after anything stored later, unless different bytes with the same hash were stored in place of one of the chunks |
| SyncEngines.IngestedMeaning | sync_engine.cpp:65-74 | the recorded size is the number of bytes modulo 2^64, the recorded root that of the recorded hashes, or zeros if there are none, and there are none exactly for no bytes |
| SyncEngines.RecordedRootsDecide | README.md:27-29 | two ingested versions with as many chunks: the same bytes have the same recorded root, and the same recorded root means the same bytes, unless two tree nodes or two chunks in the same position have different content and one hash |
| SessionLoops.MergeEntries | network.cpp:199-234 | the merge loop: the store, the list of files to write, and a set that names exactly the missing chunks of the entries that were new, strictly newer or concurrent when their turn came |
| SessionLoops.ListNeeded | network.cpp:236-240 | the request lists the missing hashes in the order of their hex names |
| SessionLoops.AnswerRequest | network.cpp:242-261 | the answer loop concatenates the records of the requested chunks that are there |
| SessionLoops.StoreChunkData | network.cpp:267-284 | the cursor loop stores exactly the records of the payload |
| SessionLoops.MaterializeAll | network.cpp:286-288 | the files are written in order, up to the first missing chunk |
| SessionPhases.MergePhaseStore | network.cpp:206-234 | the merge phase leaves the store that merging the manifest in order leaves |
| SessionPhases.MergePhaseCovers | network.cpp:203-234 | every chunk of the merged store is here or asked for, and only missing chunks of the peer's entries are asked for |
| SessionPhases.MergePhaseAsks | network.cpp:203-234 | a name is in the request set if and only if it names a hash that is not here, listed by an entry that, compared with what the entries before it left, is new, strictly newer or concurrent |
| SessionPhases.MergePhaseWrites | network.cpp:204-234 | exactly those entries are listed to be written, in the order of the manifest: at their path, or at the conflict path if they are concurrent |
| SessionPhases.NothingToTake | network.cpp:227-232 | a manifest whose entries are all covered asks for nothing, writes nothing and changes nothing |
| SessionPhases.RequestLists | network.cpp:236-240 | exactly the digests whose names are in the set are requested |
| SessionPhases.RequestInOrder | network.cpp:236-240 | in the order of the names |
| SessionPhases.AnswerMeaning | network.cpp:242-261 | everything sent was wanted and is what is stored; everything wanted and there is sent |
| SessionPhases.AnswerInOrder | network.cpp:248-260 | the answer is put together request by request, in order, each giving the chunk if it is there and nothing if not |
| SessionPhases.ReceivedMeaning | network.cpp:267-284 | receiving keeps what was there and adds exactly what was sent |
| SessionPhases.MaterializeNeverFails | network.cpp:286-288 | when every referenced chunk is there, no file fails |
| SyncSessions.ExchangeCompletes | network.cpp:236-284 | a peer asks only for chunks it lacks and the other has, gets all of them, and then has every chunk its merged store refers to |
| SyncSessions.WantedExactly | network.cpp:201-240 | for two peers at the start of a session: a chunk is requested if and only if it is not there and an entry of the other lists it which is new, strictly newer or concurrent when its turn comes |
| SyncSessions.CoveredWantsNothing | network.cpp:227-240 | a peer that has seen everything the other has requests nothing, is sent nothing and keeps its store |
| SyncSessions.FrameKinds | network.hpp:40-43 | the four frames of a session have the types 1, 2, 3 and 4 |
| SyncSessions.WrongFrameFails | network.cpp:196-294 | a frame of another type than expected, or a peer that hangs up, makes the program throw, except at the very end |
| SessionRuns.SessionOnCourse | network.cpp:186-297 | in every interleaving of two peers over FIFO channels each state is the one determined by how far each side is: every frame arrives with the expected type and content, and no side fails |
| SessionRuns.NeverStuck | network.cpp:186-297 | every run can go on until its 16th step and no further, and all complete runs end in the same state |
| SessionOutcomes.OnlyMissingChunksArrive | network.cpp:236-284 | after a session nothing stored is lost or changed, every reference is backed, and every chunk that arrived was missing, belongs to an entry of the peer and is the peer's |
| SessionOutcomes.FilesFollowStore | network.cpp:286-289 | if every version with content was on disk byte for byte before the session, so it is afterwards, for adopted and forked versions too |
| SessionOutcomes.CurrentAfterSession | network.cpp:286-289 | after a session a version that is not deleted is what the disk shows if and only if it has chunks or nothing but empty bytes was there: an adopted empty version leaves the old bytes |
| SessionOutcomes.ReadyAgain | network.cpp:286-289 | the journal written by the session restores the merged store, and the next session can begin |
| SessionOutcomes.ReadyAfterIngest | sync_engine.cpp:34-78 | ingesting any content leaves a node ready for a session: its store printable, every chunk there, every chunk below 2^32 bytes |
| SessionOutcomes.ReadyAfterDelete | sync_engine.cpp:80-83 | so does deleting |
| SessionOutcomes.NewerVersionArrives | network.cpp:186-289 | a version that is strictly newer than the peer's, or new to it, is what the peer has after the session |
| SessionOutcomes.DeleteReachesPeer | sync_engine.cpp:80-83 | after a delete and a session a peer that had seen no more of the file than the deleting node holds the deleted version, field by field |
| SessionOutcomes.EditsAreActions | sync_engine.cpp:73-83 | ingesting and deleting change a node's entries as the edits of the replica model do |
| SessionOutcomes.RunIsSession | network.cpp:186-297 | every complete interleaving has the metadata effect of one session of the replica model |
| SessionOutcomes.TwoRunsSettle | network.cpp:186-297 | from every reachable two-node state two complete protocol runs, in any interleaving, end with the same paths, the same clocks and the same conflict copies |
| SessionOutcomes.SameVersionSameBytes | file_store.hpp:7-13 | where both stores record the same chunks, both disks hold the same bytes, unless for one of those hashes the nodes hold different blobs that both hash to it |
| SessionProgram.RunSyncSession | network.cpp:186-297 | run_sync_session as one sequential program makes exactly the eight moves of a peer; against a peer that runs it too it never throws, sends what is expected and ends in the common final state |
| SessionProgram.ProgramMeetsPeer | network.cpp:186-297 | after each of its eight moves the program is where every interleaving puts it |

## Left out

- Sockets: connecting, accepting, partial sends and receives. A channel is a reliable, unbounded FIFO queue of frames; blocking on full socket buffers is not modelled. Frames of 2^32 bytes or more, whose length the header cuts off, are described by `Framing.LengthRoundTrip` but not sent in the session model.
- A frame's payload is kept either as text or as bytes, as its sender built it; a text payload stands for its bytes, one character per byte.
- The file system: the chunk directory, the journal and the materialized files are values that writes replace. Two relative paths that name the same file, failing writes and partly written files are not modelled; nor is the removal of a file after a delete, which the code does not do either. A file that is not there is taken to show no bytes.
- Malformed numbers: `std::stoull` and `std::stoi` also accept leading blanks, signs and prefixes; the model reads digits only and reports anything else as an error. A chunk record that claims more bytes than the payload holds is an error in the model, where the code reads past the end of its buffer.
- Payloads from peers that do not run this code: the session results are about two peers that do.
- SHA-256's compression rounds, its constants and the values of the gear table: every result holds for any compression function and any table of 256 64-bit values.
- Sizes and lengths other than those written out (64-bit counters, sizes and hashes, 32-bit frame lengths, the int leaf index) are unbounded; chunk-size arguments are 64-bit.
- Runs in `Replication` make no increment that would wrap a 64-bit counter; what a wrap does is stated by `VectorClocks.IncrementAdvances`.
- Runs edit only paths on which no fork can land - every path without `.conflict-` is one (`DataLoss.UnmarkedPathIsUserPath`) - and in runs of two nodes the ids contain no dot; without the second condition fork paths collide (`ConflictPaths.DottedIdCollides`).
- Equal content on all nodes after a genuine conflict: the CONCURRENT branch keeps the local version in place on each side, so only clocks, key sets and conflict copies agree.
- The command line, the node wrapper, console messages, `to_string` and the session statistics.
- SessionOutcomes.NewerVersionArrives: asks that no conflict copy of the sender's entries has that path, as the copy would take the version's place; on a path without `.conflict-` none does. `SessionOutcomes.DeleteReachesPeer` inherits the condition.
- The remote node id in a manifest, which the code reads and ignores.
- Causality.CausalInvHolds: speaks of paths no fork can land on; conflict copies carry the clock of another path, so the same is not true of them.
- Sha256.CollisionReduces: asks for length fields that differ where the padded lengths do; below 2^64 bits they always do (`Sha256.ShortLengthsTell`), beyond that the 64-bit counter wraps and equal last blocks can follow different numbers of blocks.
- TwoNodes.ClocksOnlyGrow: speaks of clocks, and a greater clock does not mean that a content was taken in; contents are the subject of `Survival.UnsupersededEditKept`.
- MergeOrder.MergeCommutesExactly: is about two versions of one path; versions of different paths are the subject of `MergeOrder.DifferentPathsCommute`, which gives a sufficient condition only.
