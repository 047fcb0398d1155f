# Fibula, modelled and verified

Fibula is a content-addressed version control system for binary assets. Spaces (working
directories) share one store: an immutable object map keyed by hash, and a map of refs that moves by
compare-and-swap. This project models its four cores and proves what they promise: nothing published
is lost, what is deleted can be given back, and each fast path equals the simple one.

- **Chunking** (`Words`, `Bits`, `Buzhash`, `Cut`, `Parameters`, `Splitter`). The ring-buffer hash equals a closed form
  over its window; the streaming, shifting, refilling splitter cuts exactly what a recursive cut of the
  whole byte sequence cuts, for every fragmentation of the reads and every substitution table.
- **Objects** (`Objects`, `Lines`, `Runes`, `Rules`, `Values`, `Codec`, `VersionKeys`, `VersionCodec`,
  `VersionSpelling`, `VersionTimes`, `VersionCoder`, `Layouts`, `Formats`). One printer and one strict
  parser for files, manifests and versions, each the inverse of the other; where a version breaks one of the
  two laws, the exact condition and an example. Timestamps follow the `date-time` grammar of section 5.6 of
  RFC 3339.
- **Store and protocol** (`Store`, `Catalog`, `Runs`, `RefLock`, `RefStore`, `Protocol`, `History`,
  `Closure`, `Progress`, `Graph`, `Gc`, `Marks`, `Paths`, `Merge`, `Diff`, `Sync`). Content-addressed
  storage of files and manifests; the lock-file compare-and-swap as interleaving file operations; all spaces
  and collections together as a step system; mark and sweep; merge, diff and applying a merge.
- **The space** (`Cache`, `Space`, `Expiry`, `Clear`). Scan, record, restore, sync and checkout of one
  working directory with its status cache; thinning of the snapshot timeline over whole runs; the gate in
  front of every deletion.

`dafny verify dfyconfig.toml` checks the whole project.

## How the model stands to the source

Code that changes state in place is a class with methods (`RollingHash`, `Reader`, `Splitter`,
`ObjectStore`, `FileHasher`, `Encoder`, `Decoder`, `StatusCache`, `Space`, `RefFile`) or a method with
loops; each is proved against a function or relation, and the promises are lemmas about that. What runs
concurrently is a step system over the shared writes (`RefLock`, `Protocol`): every theorem about it
holds for every run, and a crash or an error is possible between any two writes.

What a theorem and the code both rest on is characterised apart from its definition: the mask bit by bit
(`Parameters.ChunkEndForParams`), the byte order (`Paths.LessIsBytewise`), UTF-8 by its code points
(`Runes.Utf8IsEncoded`), paths and messages byte by byte (`Rules`), the calendar, the difference of two manifests
(`Diff.DiffIsUnique`), the thinning schedule (`Expiry.ScheduleIsUnique`), and what a record does to refs and
history (`Space.Space.Record`).

Assumptions, all of them parameters or preconditions in the text:

- Of the contents that are ever at hand (`occurs`, a part of `Store.Format`), no two share a hash within
  a kind (`Store.CollisionFree`); whatever is read, cut or written must be at hand. For all byte
  sequences that could not be asked of 64-character IDs; for any finite number of them it can, together
  with everything else the store and the space ask of a format (`Formats.SomeHashSuitsTheContents`).
  `Protocol` represents an ID by the object it names.
- `Put` is atomic and may fail; nondeterministic choices (`*`) stand for I/O failures, unreadable files
  and the fragmentation of reads.
- The working directory is a flat map from path to content and modification time. A write gives its path
  a size and time it did not have before with other content, and no file changes while it is read.
- A space runs one command at a time. Every ref is listed.
- A file object lists the chunks of the content its ID names (`Cache.Honest`): store/verify.go does not
  check that, so its writers must see to it; the project's own writers are proved to. What is left without
  it stands among the promises that fail.
- Nothing is assumed of the status cache by the deletion gate, by recording, restoring and checking out
  (`Space.Space.Usable`). If it tells the truth and vouches for nothing the store has lost
  (`Space.Space.Trusted`), it still does afterwards, and the statements that need it say so. Sync assumes it.
- In `Protocol`, a collection lists the refs in one step, reads each in its own, walks the store in one
  and deletes key by key. What it marks is the closure of the versions it read, as `Gc.ReachableObjects`
  and `Marks.MarkIsRootsClosure` prove of the mark. Which objects are old at the walk is left open.

Where code and prose of the repository disagree, the model follows the code. The parameter note
(refinements/2026-08-02-chunking-parameters.md:102-107) says that a long run of any non-zero byte is cut
at the maximum; by the code it is cut at the minimum instead whenever a parity of the table says so
(`Cut.RunIsCutAtMinimumOrNever`). client/dirty.go:363-365 says that a missing chunk affects all
paths of a content equally, but only the first path is reported, so the guarantee is tied to a check
without any problem (`Clear.CheckClear`).

Promises that fail in corner cases, each with its exact condition and an input that breaks it:

- An accepted version is printed as it was written: `VersionSpelling.VersionPrintsBack`, broken by
  `Formats.SomeVersionHasTwoSpellings`.
- A version that was written can be read: `VersionTimes.TimedReadsBackIff`, broken by
  `VersionTimes.FarYearIsWrittenButRefused`.
- Sync loses none of their work: `Sync.TheirsKeptUnlessIgnored`, broken by `Sync.IgnoredAdditionIsLost`.
- Sync and checkout leave ignored files alone: `Sync.IgnoredLeftAloneIff` and `Space.IgnoredLeftAloneIff`,
  broken by `Sync.IgnoredFileIsOverwritten`.
- A file whose chunks the gate finds in the store can be given back (client/dirty.go:78-117): without
  `Cache.Honest`, if and only if VerifyFileContent would accept its list (`Clear.RestorableIffVerified`).
  The dirty check is told to ask for that (store/verify.go:87-91) and does not: `Clear.WrongListPassesTheGate`.
- Restore undoes Clear: `Clear.RestoreUndoesClearIff`, broken by `Clear.RestoreMissesWhatIsNotListed`.
- A stale lock can be broken (store/fs/refs.go:313-316): `RefLock.BreakingIsSafeIffAbandoned`. Even if only
  locks of dead processes ever look stale, the condition fails when two processes find the same lock
  stale and the second removes the lock file the first has just created: `RefLock.TwoBreakersOfOneLock`,
  and then an update can be lost: `RefLock.BreakingALiveLockLosesAnUpdate`.
- Expiry never deletes a deliberate version: `History.TimelineHoldsOnlySnapshotsIff`, broken by
  `Progress.DeliberateVersionCanExpire`.
- A collection takes nothing from anyone (client/gc.go:53-63). `Closure.RunHoldsIff` is about all that refs,
  caches and commands in flight rely on (`Closure.Held`), not about the refs alone. It is broken by
  `Progress.PromotedSnapshotCanBeSwept`, by `Progress.CachedFileCanBeSwept`, and by
  `Progress.FileStoredAgainCanBeSwept`, where the object was written during the run; in all three a ref ends
  up incomplete. What the grace period has to achieve is `Closure.DeletionIsHarmlessUnlessRevived`.

## Model

| member | source | states |
|---|---|---|
| Words.HashOfStep | chunk/buzhash.go:61-68 | one incremental step (rotate, take the oldest byte out, put the newest in) turns the closed form over the last 64 bytes into the closed form of one more byte |
| Words.HashOfIsLocal | chunk/buzhash.go:40-48 | the hash depends on the last 64 bytes alone, whatever was fed before |
| Words.HashOfRun | chunk/buzhash.go:61-68 | a window filled with one byte hashes to all zeros or all ones, decided by a bit parity of the table |
| Bits.Bv64IsLawful | chunk/buzhash.go:45-48 | 64-bit words with one-bit rotation and exclusive or satisfy the laws the hash theory uses; 64 rotations are the identity |
| Bits.Bv64BitByBit | chunk/buzhash.go:61-68 | rotation moves every bit up one place and the top one to the bottom, exclusive or acts on each bit, and odd is the lowest bit |
| Bits.BitsDetermine | chunk/buzhash.go:61-68 | a word is its bits, so that determines the operations |
| Buzhash.RollingHash.Reset | chunk/buzhash.go:54-58 | afterwards the hash is that of no byte at all: nothing of the previous chunk is left |
| Buzhash.RollingHash.Roll | chunk/buzhash.go:61-68 | the returned sum is the closed form of everything fed since reset, this byte included |
| Cut.BoundaryIsUnique | chunk/chunk.go:161-179 | the boundary is the first allowed cut, or the end, and nothing else |
| Cut.SkippedPrefixIsExact | chunk/chunk.go:154-179 | wherever a cut is allowed, hashing from MinSize-64 on gives the hash of the whole chunk so far |
| Cut.NoCutBelowMinimum | chunk/chunk.go:161-179 | starting the search anywhere below MinSize finds the same boundary |
| Cut.ChunksConcatenate | chunk/chunk.go:102-120 | the chunks of a stream concatenate to the stream |
| Cut.ChunksAreBounded | chunk/chunk.go:18-35 | no chunk is empty or above MaxSize, and only the last may be below MinSize |
| Cut.ChunksResume | chunk/chunk.go:108-120 | from any chunk start on, a stream is cut as if it began there |
| Cut.EditsResynchronise | chunk/buzhash.go:51-58 | once two streams start a chunk at the beginning of a common suffix, all further chunks are equal |
| Parameters.ForParamsIsValid | chunk/chunk.go:59-72 | every parameter set that validates gives a cutter all theorems apply to |
| Parameters.NewSplitter | chunk/chunk.go:91-100 | a splitter is made exactly if 0 < MinSize <= MaxSize and the mask has 1 to 63 bits, and it starts valid over the whole stream |
| Parameters.MaskedIff | chunk/chunk.go:71-72 | the mask test is that the low bits of the hash are all zero; no other bit matters |
| Parameters.ChunkEndForParams | chunk/chunk.go:161-179 | with the program's parameters a chunk ends at the first place at or past MinSize where the low bits of the hash are zero, or at MaxSize, or with the stream, and nowhere else |
| Cut.RunIsCutAtMinimumOrNever | chunk/chunk.go:161-179 | a long run of one byte is cut at MinSize or nowhere, by the parity of its table word against that of zero |
| Parameters.RunRuleForParams | chunk/chunk.go:72-179 | the parity rule of long runs holds for the masks the program uses |
| Splitter.Reader.Read | chunk/chunk.go:137-152 | a read delivers any prefix of what is left, may deliver nothing, may report the end early or late, and fails exactly where the stream does |
| Splitter.Reader.ReadFull | chunk/chunk.go:137-152 | io.ReadFull fills the rest of the buffer, or the stream ended, or a read failed; an end is reported only if none did |
| Splitter.MoveToFront | chunk/chunk.go:125-131 | the live bytes end up at the front of the same array |
| Splitter.Splitter.DropEmitted | chunk/chunk.go:125-131 | the bytes already returned leave the window, the bytes to come stay |
| Splitter.Splitter.Fill | chunk/chunk.go:137-152 | afterwards the window holds the next MaxSize bytes or all that is left, or the stream failed and nothing was lost |
| Splitter.Splitter.FindBoundary | chunk/chunk.go:161-179 | the skipping, in-place scan finds the reference boundary of the window |
| Splitter.Splitter.Next | chunk/chunk.go:108-120 | each call returns exactly what the reference cuts off the bytes that are left, however reads are fragmented; a failing stream loses nothing, and a stream without a failing read never fails |
| Store.TotalLengthOfRefs | chunk/build.go:41-78 | the size of a built file is the length of its content |
| Store.BuiltFileIsConsistent | object/file.go:103-125 | every file object the builder can produce passes validation |
| Store.ReadChunksFrame | store/manifest.go:97-117 | reading a chunk list depends on the chunks it names and on nothing else |
| Store.ReadManifestFrame | store/manifest.go:77-95 | a manifest stays readable, and the same, while the store grows |
| Store.StoredManifestReadsBack | store/manifest.go:30-117 | a stored manifest reassembles to the bytes that were put, for all cutting parameters |
| Store.ObjectStore.Put | store/verify.go:58-63 | only bytes that hash to their key are stored, or that parse where the key is the hash of a content; a failure changes nothing |
| Store.ObjectStore.Get | store/verify.go:43-52 | only bytes that verify are returned |
| Store.ObjectStore.Delete | store/verify.go:37-39 | one key goes, nothing else, and a missing key is no error |
| Store.SinkChunk | chunk/build.go:41-78 | a chunk is stored under its own hash and nothing stored before is touched |
| Store.BuildChunk | chunk/build.go:41-78 | one round keeps: what is cut, hashed and stored so far plus what is left is the whole stream |
| Store.BuildChunks | chunk/build.go:41-78 | the loop ends with the reference cut of the whole stream hashed, stored and listed, or with the error of a round |
| Store.BuildFile | chunk/build.go:41-78 | the ID is the hash of the content whatever the parameters, the list is the reference cut with all chunks stored, and failures leave only chunks behind |
| Store.PutManifest | store/manifest.go:30-65 | after success the manifest reads back as the bytes put; in any case nothing but chunks and its own object changed |
| Store.GetManifest | store/manifest.go:77-117 | the loop computes the reassembled, length-checked and hash-checked manifest, or fails |
| Store.VerifyFileContent | store/verify.go:155-180 | accepts exactly if the listed chunks are all readable and hash to the ID |
| Lines.SplitOfJoin | object/codec.go:37-45 | fields without separators survive joining and splitting |
| Lines.TextReadsBack | object/codec.go:74-105 | good lines, once printed, are the canonical lines of the text |
| Lines.CanonicalLinesPrint | object/codec.go:74-105 | an accepted text is the printed form of its lines, and every line is good: not blank, UTF-8, without carriage return or trailing blank |
| Runes.Utf8IsEncoded | object/codec.go:74-105 | a text passes as UTF-8 if and only if it is the encoding of some code points (section 3 of RFC 3629) |
| Runes.BomIsEncoded | object/codec.go:74-105 | what is refused at the start is the encoding of U+FEFF |
| Lines.FieldsOfLine | object/codec.go:121-135 | a printed line splits into the very fields it was printed from |
| Values.NumbersRoundTrip | object/codec.go:159-185 | numbers up to the int64 maximum parse back, and an accepted number has one spelling |
| Values.TimeReadsBack | object/codec.go:187-210 | a whole second parses back if and only if its year has four digits |
| Values.TimePrintsBack | object/codec.go:187-210 | an accepted timestamp has one spelling |
| Values.CalendarIsGregorian | object/codec.go:187-210 | the lengths of months and years are those of the Gregorian calendar |
| Codec.Encoder.Line | object/codec.go:37-45 | appends exactly one line to what was written |
| Codec.Decoder.Next | object/codec.go:121-135 | consumes a line exactly if it has the wanted number of fields |
| Codec.Decoder.Keyed | object/codec.go:139-149 | yields the value of the next line exactly if it has the key |
| Codec.NewDecoder | object/codec.go:60-69 | opens exactly the canonical texts with the expected header |
| Codec.FileReadsBack | object/file.go:43-86 | every valid file object parses back from its own bytes |
| Codec.FilePrintsBack | object/file.go:43-86 | every accepted file object is printed as it was written |
| Layouts.FileLayout | object/file.go:43-54 | a file object is the framing line, the size under its keyword, and a line per chunk: ID, tab, length |
| Codec.MarshalFile | object/file.go:43-54 | the encoder loop computes the specified bytes, or refuses an invalid object |
| Codec.ValidateFile | object/file.go:103-125 | accepts exactly the valid objects, summing lengths with int64 wrap-around |
| Codec.UnmarshalFile | object/file.go:57-86 | the decoder loop computes the specified parse |
| Codec.ManifestReadsBack | object/manifest.go:44-79 | every valid manifest parses back from its own bytes |
| Codec.ManifestPrintsBack | object/manifest.go:44-79 | every accepted manifest is printed as it was written |
| Layouts.ManifestLayout | object/manifest.go:44-54 | a manifest is the framing line and a line per entry: path, tab, file, tab, size |
| Codec.ManifestsWithOneTextAgree | object/manifest.go:97-106 | two manifests with one serialisation, hence one ID, are one state |
| Codec.NeighboursSort | object/manifest.go:116-137 | the check of neighbours sorts the whole manifest |
| Merge.SortedIsBytewise | object/manifest.go:116-137 | sorted means: every entry before every later one in byte order |
| Codec.CheckCollisions | path/path.go:114-126 | accepts exactly if no two paths differ only in case |
| Rules.PathRule | path/path.go:54-105 | a path is accepted if and only if it is well-formed text without control characters and backslashes, and between any two slashes or ends stands a name other than . and .. |
| Codec.ValidateManifest | object/manifest.go:116-137 | accepts exactly the manifests whose entries are valid, whose neighbours ascend in byte order and whose paths do not collide |
| Codec.MarshalManifest | object/manifest.go:44-54 | the encoder loop computes the specified bytes, or refuses an invalid manifest |
| Codec.UnmarshalManifest | object/manifest.go:59-79 | the decoder loop computes the specified parse |
| VersionKeys.VersionKeysAreGood | object/version.go:57-82 | the keywords of a version are distinct and well-formed fields |
| VersionCodec.MarkerIsALine | object/version.go:171-184 | the marker that is searched in the bytes is always a whole line |
| VersionCodec.FirstMessageLine | object/version.go:171-184 | the first marker found is the first message line |
| VersionCodec.CutAtMessage | object/version.go:171-210 | head, message line and body are cut apart again, even if the body holds message lines of its own |
| Rules.MessageRule | object/version.go:190-210 | a message block is accepted if and only if it ends with a line break, holds no carriage return and no blank before a break, and neither begins nor ends with an empty line |
| VersionCodec.VersionReadsBack | object/version.go:57-104 | a valid version parses back from its own bytes if and only if the years of its times have four digits; otherwise what was written is refused |
| VersionCodec.SpelledVersionReadsBack | object/version.go:146-167 | so does every spelling that writes an unset expiry or graph out, to the same version |
| VersionSpelling.VersionPrintsBack | object/version.go:57-167 | an accepted version is printed as it was written if and only if no line spells out a zero expiry or graph |
| VersionSpelling.ZeroExpiryHasTwoSpellings | object/version.go:69-74 | every version without expiry has a second accepted spelling |
| VersionTimes.TimedReadsBackIff | object/codec.go:187-210 | a version with times to the nanosecond, once written, parses back to the second if and only if the years have four digits and the time is not in the second that stands for unset; otherwise what was written is refused |
| VersionTimes.FarYearIsWrittenButRefused | object/version.go:57-104 | a version of the year 10000 is written, and what was written is refused |
| VersionTimes.VersionsWithOneTextAgree | object/version.go:213-219 | two versions with one serialisation, hence one ID, are one version to the second, whatever their years |
| VersionCoder.MarshalVersion | object/version.go:57-82 | the encoder computes the specified bytes for every time, or refuses an invalid version |
| Layouts.VersionLayout | object/version.go:57-82 | manifest, parents, author, time, then expiry and graph where they are set, each under its keyword, then the message under its own |
| VersionCoder.ReadParentLines | object/version.go:108-144 | the parent loop reads the run of parent lines, or fails because one of them is malformed |
| VersionCoder.ReadOptional | object/version.go:146-167 | expiry and graph in this order, each at most once, and nothing behind them |
| VersionCoder.ReadHead | object/version.go:108-144 | the step-by-step parse of the head computes the specified version |
| VersionCoder.UnmarshalVersion | object/version.go:85-104 | the parser computes the specified version |
| VersionCoder.ValidateVersion | object/version.go:221-247 | accepts exactly the valid versions, a time being set if any part of it is |
| Formats.NoWrapBelowMax | object/file.go:103-125 | below 2^63 the wrapping sum of lengths is their sum |
| Formats.CanonicalFilesRoundTrip | object/file.go:43-86 | every file object that lists hashed chunks survives the codec |
| Formats.CanonicalObjectsReadBack | object/manifest.go:44-79 | whatever manifest or version the codec writes, it reads back |
| Formats.CanonicalManifestsAreSorted | object/manifest.go:116-137 | an accepted manifest is sorted by path without duplicates |
| Formats.CanonicalStoreIsOk | object/file.go:43-86 | over any hash that gives IDs and does not collide on the contents at hand, the canonical codec meets everything the store and the space require |
| Formats.SomeHashSuitsTheContents | store/verify.go:58-63 | such a hash exists for every finite set of contents that is closed under pieces, so these requirements can be met together |
| Formats.NewSpace | chunk/chunk.go:59-72 | a space over the canonical codec and validated cutters starts valid, so every theorem about spaces applies to it |
| Formats.CanonicalVersionsRoundTrip | object/version.go:57-167 | both version laws with their exact conditions, for the real keywords |
| Formats.SomeVersionHasTwoSpellings | object/version.go:69-74 | a concrete accepted version that is not printed as it was written |
| Paths.LessIsTotal | path/path.go:128-132 | the byte order of paths is total and antisymmetric |
| Paths.LessIsTransitive | path/path.go:128-132 | the byte order of paths is transitive |
| Paths.LessIsBytewise | path/path.go:128-132 | a path comes first if it is a proper beginning of the other, or has the smaller byte where they first differ |
| Paths.AscendingIsUnique | path/path.go:134-137 | a set of paths has one sorted listing |
| Paths.SortPaths | manifest/merge.go:161-175 | a set of paths, visited in any order, comes out complete and in ascending byte order |
| Merge.ResolveIsThreeWay | manifest/merge.go:98-157 | the case analysis decides the three-way rule with absence as a value, and reports exactly the undecidable cases |
| Merge.MergeManifests | manifest/merge.go:64-88 | the loop computes the merge relation |
| Merge.MergeIsUnique | manifest/merge.go:64-88 | three manifests have one merge |
| Merge.MergeIsPointwise | manifest/merge.go:64-157 | the result is sorted, free of duplicates, and holds the three-way decision at every path |
| Merge.ConflictsAreExact | manifest/merge.go:98-157 | a path is reported if and only if the three sides are pairwise different there, once, in path order, with both entries |
| Merge.MergeFastForwards | client/sync.go:41-44 | merging an unchanged directory gives exactly the other side, without conflicts |
| Merge.MergeKeepsOurs | manifest/merge.go:64-88 | if the other side did nothing, ours is the result |
| Merge.MergeOfEqualSides | manifest/merge.go:64-88 | equal changes do not conflict |
| Merge.MergeIsSymmetric | manifest/merge.go:64-88 | exchanging the sides reports the same paths and agrees on all others |
| Merge.MergeLosesNothing | manifest/merge.go:64-88 | every content that differs from the base survives in the result or in the report |
| Diff.BuildQueues | manifest/diff.go:76-101 | each content's queue holds its removed entries in order |
| Diff.TakePartner | manifest/diff.go:76-101 | one round pops the queue of one content, consumes that entry and no other |
| Diff.PairRenames | manifest/diff.go:76-101 | the queues and flags compute the rank-by-rank pairing |
| Diff.ConsumedByOne | manifest/diff.go:76-101 | a removed entry is used up exactly if an added entry of its content was paired with it, and by one only |
| Diff.NoContentBothAddedAndRemoved | manifest/diff.go:76-101 | renames are exhaustive: no content is left both added and removed |
| Diff.AddedSplits | manifest/diff.go:76-101 | every added entry is an addition or a rename target |
| Diff.RemovedSplits | manifest/diff.go:76-101 | every removed entry is a removal or a rename source |
| Diff.DiffManifests | manifest/diff.go:47-71 | the loops compute the difference: each path gone or come in exactly one class, renames paired k-th to k-th within a content, none missed, all lists in order |
| Diff.DiffIsUnique | manifest/diff.go:47-101 | these properties determine the difference: whatever has them is what Diff computes, and that has them |
| Diff.RenamesOfContent | manifest/diff.go:76-101 | of every content as many paths are renamed as can be: the smaller of the numbers of paths gone and come |
| Diff.RenamesMoveContent | manifest/diff.go:76-101 | a rename pairs a path that went with a path that came, of one content |
| Diff.IncomingIsExact | client/sync.go:178-187 | exactly the entries the directory does not show yet are written |
| Diff.OutgoingIsExact | client/sync.go:135-141 | exactly the entries whose path is gone are deleted |
| Diff.PatchTouchesOnlyDifferences | manifest/diff.go:47-101 | a path is written or deleted if and only if the sides differ there, and never both |
| Diff.DiffIsSorted | manifest/diff.go:47-101 | every list of the difference is in path order |
| Diff.AddedIsNoTarget | manifest/diff.go:47-101 | an added path is not also a rename target |
| Diff.RemovedIsNoSource | manifest/diff.go:47-101 | a removed path is not also a rename source |
| Diff.ChangedIsOnBothSides | manifest/diff.go:47-101 | a changed path is on both sides with different contents, so it is in no other class |
| Sync.PatchRealisesMerge | client/sync.go:119-148 | applying the difference gives each path where the manifests differ its merged content, and leaves every other path as it is on disk |
| Sync.CleanPatchYieldsMerged | client/sync.go:119-148 | from a directory equal to ours, exactly the merged tree results |
| Sync.SyncThenCommitLosesNothing | client/sync.go:46-148 | after sync and commit, their change is in the commit or was reported with their entry, and ours is in the commit unless we deleted what they edited |
| Sync.TheirsKeptUnlessIgnored | client/sync.go:46-148 | all of their work survives if and only if they added no path our ignore rules hide |
| Sync.IgnoredAdditionIsLost | client/sync.go:46-148 | a file only they have, at a path our rules hide, is gone from the next commit without a report |
| Sync.IgnoredLeftAloneIff | client/sync.go:119-148 | a file at a path our rules hide is left alone if and only if they did nothing there, have none there or the same; where it is not, it is reported exactly if the base had one |
| Sync.IgnoredFileIsOverwritten | client/sync.go:119-148 | our own ignored file at a path they added is overwritten without a report |
| Space.Space.WriteConflictCopies | client/sync.go:202-222 | a copy exists for exactly the reported paths for which they have a file, with their content; nothing of an earlier sync is left |
| RefLock.StepKeepsExclusion | store/fs/refs.go:127-191 | every file operation of any process keeps at most one process inside the lock, and only that one changes the ref |
| RefLock.AtMostOneHolder | store/fs/refs.go:247-311 | in every run at most one process is between the exclusive create and the remove |
| RefLock.RunsAreLinearizable | store/fs/refs.go:121-191 | every run is a sequential execution of an atomic ref ending in what the file holds; each returned call had exactly one effect, in its own interval, and returns what that effect says |
| RefLock.OneWinnerPerValue | store/fs/refs.go:86-88 | of two swaps that replaced the same value, the value came back in between: no update is lost |
| RefLock.BreakingIsSafeIffAbandoned | store/fs/refs.go:313-322 | after a lock file is removed, every continuation is a sequential execution if and only if no live process was inside |
| RefLock.BreakingALiveLockAdmitsTwo | store/fs/refs.go:313-316 | after the lock file of a live process is removed, a continuation has two processes inside at a time |
| RefLock.BreakingALiveLockLosesAnUpdate | store/fs/refs.go:313-316 | after the lock file of a live process is removed, a continuation has two successful swaps that expected the same value, the second over the value of the first |
| RefLock.TwoBreakersOfOneLock | store/fs/refs.go:299-322 | a run of three processes in which every lock is judged stale only after its creator died, and a live lock is removed all the same |
| RefLock.OthersRespectTheHolder | store/fs/refs.go:247-267 | while a process is inside, no other changes the ref or the lock file |
| RefStore.RefFile.AcquireFileLock | store/fs/refs.go:286-311 | fifty attempts, each of which may break an abandoned lock, end with the lock held, with a conflict, or with an error |
| RefStore.RefFile.CompareAndSwap | store/fs/refs.go:127-191 | between the turns of all others, the code has exactly one effect, and the answer is that effect's |
| RefStore.RefFile.DeleteRef | store/fs/refs.go:232-243 | a deletion has exactly one effect between the turns of all others, and the answer is that effect's |
| RefStore.OthersTakeTurns | store/fs/refs.go:247-267 | whatever the others do between two file operations of this process is a turn the code is proved against |
| History.RefMovesToItsChild | client/target.go:93-136 | a ref outside the timeline moves only to a deliberate version whose sole parent is its value, by a commit whose base was that value |
| History.HistoryIsLinear | client/version.go:188-205 | in every run of any number of spaces, the successive values of such a ref are exactly the parent chain of its last value |
| History.PublishedVersionsStay | client/target.go:79-92 | no published version ever stops being an ancestor of its ref |
| History.TimelineHoldsOnlySnapshots | client/expiry.go:110-129 | while no space stands on a timeline ref, the timeline holds snapshots only, so expiry never deletes a deliberate version |
| History.TimelineBreaksIff | client/target.go:93-136 | one step brings a deliberate version onto the timeline if and only if it is a commit that goes through on a timeline ref |
| History.TimelineHoldsOnlySnapshotsIff | client/expiry.go:110-129 | all along a run the timeline holds snapshots only, if and only if no commit goes through on it |
| Progress.CommitOnTimelineCanExpire | client/checkout.go:244-250 | a space that stands on a timeline ref can commit there, and then expiry can delete the commit |
| Progress.DeliberateVersionCanExpire | client/checkout.go:244-250 | from the empty store: snapshot, check the snapshot's ref out, commit, and expiry can delete the commit |
| Closure.FileWritesAreClosed | client/snapshot.go:154-201 | the writes for one file are its closure |
| Closure.RecordWritesAll | client/snapshot.go:123-250 | the writes of a record, with what the cache vouches for, make its manifest complete |
| Closure.MoverIsBacked | client/snapshot.go:74-233 | after every harmless write a command still finds all it relies on in the store |
| Closure.StepKeepsComplete | client/snapshot.go:204-233 | as long as nothing is deleted every step is harmless, and keeps every ref, snapshot and cache entry complete |
| Closure.DeletionHoldsIff | client/gc.go:110-131 | a deletion leaves refs, caches and commands in flight with all they rely on if and only if none of them relies on the object |
| Closure.StepHoldsIff | client/snapshot.go:204-233 | any step does so if and only if it is harmless: it deletes nothing relied on, and promotes no snapshot whose parts are gone |
| Closure.RunHoldsIff | client/gc.go:53-63 | all along a run everything relied on is stored, if and only if every step of it is harmless |
| Closure.NothingElseIsReliedOn | client/snapshot.go:123-280 | an object nobody relied on is relied on after a step only if the step stored it, put a file made of it into a directory, or promotes a snapshot made of it |
| Closure.WalkSparesWhatWasRead | client/gc.go:72-98 | no ref that still has the value the collection read relies on anything the walk dooms |
| Closure.DeletionIsHarmlessUnlessRevived | client/gc.go:18-25 | a deletion is harmless if the refs were at the walk as they had been read, no cache and no command relied on the object then, and no step revived it since |
| Closure.RefsAreCompleteAtEveryCrashPoint | client/snapshot.go:204-233 | wherever commands and collections are interrupted, every ref has its full closure in the store and every cache entry can be restored, as long as every step was harmless |
| Progress.CollectionMustSpareCachedFiles | client/snapshot.go:154-157 | where a file object is gone that a cache vouches for, the next commit of that file dangles |
| Progress.PromotedSnapshotCanBeSwept | client/version.go:111-143 | from the empty store: a snapshot expires, a collection dooms it, Promote goes through, and the sweep deletes the manifest of the promoted ref |
| Progress.CachedFileCanBeSwept | client/snapshot.go:154-157 | from the empty store: the cache still vouches for a file whose only snapshot was collected, and the next commit dangles |
| Progress.FileStoredAgainCanBeSwept | client/gc.go:53-63 | from the empty store: a commit stores a doomed file again and publishes, and the sweep deletes it |
| Closure.RecordIsOrdered | client/snapshot.go:123-250 | chunks are written before the object that lists them, files before the manifest |
| Closure.NothingDanglesBeforeADeletion | client/snapshot.go:123-280 | as long as nothing was deleted, no crash leaves an object in the store whose parts are missing |
| Progress.RecordGoesThrough | client/snapshot.go:204-312 | an undisturbed commit or snapshot of an up-to-date space succeeds, and the space stays up to date: a commit moves the base along, a snapshot leaves it |
| Progress.SyncMakesUpToDate | client/sync.go:50-53 | after an undisturbed sync the space is up to date, so the next commit succeeds |
| Progress.CheckoutMakesUpToDate | client/checkout.go:244-271 | an undisturbed checkout of a ref moves the space onto it, with its value as base, so the next commit succeeds |
| Graph.ClosedSetHoldsReached | client/gc.go:134-164 | a closed set with all roots holds all that is reachable |
| Gc.MarkFile | client/gc.go:248-270 | marks a file and its chunks; a file marked before needs no second look |
| Gc.MarkFiles | client/gc.go:208-246 | marks every file of a manifest, everything marked being live |
| Gc.MarkManifest | client/gc.go:208-246 | marks a manifest, its chunks and its files; a marked manifest needs no second look |
| Gc.MarkVersion | client/gc.go:186-206 | marks a version, its graph and its manifest |
| Gc.ReachableObjects | client/gc.go:134-164 | terminates with exactly the key closure of the refs, and fails exactly if that closure holds something unreadable |
| Gc.EveryCandidateIsCounted | client/gc.go:110-131 | every candidate is live, spared or deleted |
| Gc.Sweep | client/gc.go:110-131 | removes exactly the doomed ones among the candidates it got to, and counts them |
| Gc.Collect | client/gc.go:72-98 | a failed mark deletes nothing; only condemned objects go, by default none that is less than an hour old, on success all of them; Scanned = live + Spared + Deleted |
| Gc.LiveVersionsAreHistory | client/gc.go:134-164 | the versions the mark reaches are exactly those in the history of a ref |
| Gc.CollectionKeepsHistory | client/gc.go:43-63 | afterwards every version in the history of a ref is there, with its graph, the same entries and the same bytes |
| Gc.CollectionKeepsClosure | client/gc.go:43-63 | what the refs lead to is still reachable and readable |
| Marks.MarkIsRootsClosure | client/gc.go:134-164 | the keys the mark finds live are exactly the closure, in the step system, of the versions the collection read, and the graphs those name |
| Cache.MatchingEntryIsTrue | client/cache.go:74-76 | a matching cache entry carries the hash of the file on disk |
| Cache.WriteKeepsSound | client/cache.go:31-40 | a write with a fresh look keeps every cache sound, whether or not it knows of the write |
| Space.RehashIsUnique | client/snapshot.go:120-150 | a directory has one manifest that hashing everything gives |
| Space.RehashedIsScanned | client/snapshot.go:120-150 | the re-hashed manifest is what the merge and sync theorems take a scan to be |
| Space.FileStored | client/snapshot.go:192-201 | storing the list of a content just built keeps everything that could be restored |
| Space.SoundScanRehashes | client/snapshot.go:120-189 | a scan through a true cache gives what hashing everything gives |
| Space.Space.OutsideWrite | client/cache.go:31-40 | a write from outside with a fresh size and time keeps the cache as true as it was |
| Space.Space.OutsideDelete | client/cache.go:31-40 | deleting a file leaves the cache as true as it was |
| Space.Space.SnapshotFile | client/snapshot.go:154-189 | the entry is the cached one where size and time match, otherwise what reading and hashing the file gives; what was read can be restored |
| Space.Space.BuildAndPut | client/snapshot.go:159-175 | chunks and list are stored under the hash of the content |
| Space.Space.PutFile | client/snapshot.go:192-201 | the list of a content's chunks is stored under the hash of the content, which can be restored from then on |
| Space.Space.ScanWorkingTree | client/snapshot.go:123-150 | whatever the cache, the scan is the listing of what it vouches for and what was read; through a true cache it equals a full re-hash, every file of it can be restored, and the new cache is that of the directory |
| Space.Space.PutTree | client/snapshot.go:235-250 | the manifest is stored so that it reads back as the same entries |
| Space.Space.PutVersion | client/snapshot.go:252-280 | the version is stored so that it reads back, and no other object changes |
| Space.Space.PublishVersion | client/target.go:51-136 | a commit publishes only over its parent, a snapshot only where nothing else is |
| Space.Space.StoreState | client/snapshot.go:204-225 | version and manifest are readable before anything is published, and so are the files if the cache is true; field by field the version says what the command was given, with the base as only parent of a commit and none of a snapshot |
| Space.Space.PublishState | client/snapshot.go:222-233 | publishing and recording locally succeed together, or nothing changes; a commit moves its ref from the base of the space, a snapshot a ref of its own |
| Space.Space.RecordHead | client/snapshot.go:282-312 | a commit moves the base, a snapshot does not, and the ref stays |
| Space.Space.Record | client/snapshot.go:74-107 | the whole of a snapshot or commit: what is recorded is the scan, with a true cache the directory; the version has the fields given; a commit moves the ref of the space from its base to a child of it, a snapshot a ref of its own; no ref loses anything of its history; a failure before publication changes nothing local |
| Space.Space.RestoreEntry | client/restore.go:186-228 | success writes exactly the content the ID names; failure touches that path only |
| Space.Space.ReadContent | client/restore.go:210-220 | the chunks read in order are a beginning of the content, and all of it at the end |
| Space.Space.RefreshCache | client/restore.go:233-250 | the cache becomes that of the restored files |
| Space.Space.RestoreManifest | client/restore.go:160-184 | every entry is on disk with its content, no other path is touched, and the cache is true afterwards, whatever it was |
| Space.Space.WriteIncoming | client/sync.go:152-174 | the entries are written in order; the cache knows exactly those as they are on disk, and every other path as before |
| Space.Space.DeleteAll | client/sync.go:135-141 | the listed paths are deleted and leave the cache, and no other path does |
| Space.Space.ApplyMerged | client/sync.go:119-148 | the directory becomes the merged tree; the cache keeps its entries where the manifests agree, knows what was written, and loses what went; even a failure halfway leaves every agreed path alone |
| Space.Space.MergeOnto | client/sync.go:77-111 | merges the base's, the directory's and the ref's manifest, applies the result and copies their side of every conflict out |
| Space.Space.MergeTrees | client/sync.go:77-111 | scan, merge, apply: the directory is the merge of the three manifests |
| Space.Space.SyncOnto | client/sync.go:46-73 | nothing happens exactly if the ref is absent or already the base; otherwise the space descends from the ref's version, with the directory merged onto it |
| Space.Space.RemoveUnwanted | client/checkout.go:222-236 | exactly the scanned paths the manifest does not name are deleted |
| Space.Space.ApplyManifest | client/checkout.go:209-242 | the directory matches the manifest; ignored files at other paths are left alone |
| Space.Space.CheckoutVersion | client/checkout.go:154-271 | directory, cache, local manifest, version and base are those of the target; only a ref is moved onto; an ignored file changes only where the target names its path |
| Space.IgnoredLeftAloneIff | client/checkout.go:209-242 | after a checkout an ignored file has its content if and only if the target does not name its path, or names that content |
| Space.CommitAfterSync | client/sync.go:50-53 | a commit after a sync is one the no-loss theorem speaks about |
| Space.Space.SyncAndCommit | client/sync.go:46-73 | sync, then commit: the version has the ref's version as parent, the ref moved to it and keeps its history, and its manifest is one the no-loss theorem speaks about |
| Expiry.SortByTime | client/expiry.go:43-48 | sorting keeps every snapshot and orders them by time |
| Expiry.Reverse | client/expiry.go:97-101 | reverses in place |
| Expiry.Retain | client/expiry.go:43-73 | partitions the timeline and follows the schedule: per hour, UTC day and week of the three bands of age one snapshot, a newest one; what is dated ahead keeps its second; what is older than every window is dropped |
| Expiry.ThinningFollows | client/expiry.go:43-95 | one survivor per bucket is the schedule stated by ages, hours, days and weeks |
| Expiry.ScheduleIsUnique | client/expiry.go:43-95 | two results that follow the schedule keep snapshots of the same instants |
| Expiry.SecondsAndHours | client/expiry.go:75-95 | a second and an hour are the stretches between multiples of theirs |
| Expiry.DaysAndWeeks | client/expiry.go:75-95 | a day begins at midnight in UTC, a week at the midnight before a Monday |
| Expiry.ThinningIsIdempotent | client/expiry.go:43-73 | thinning again at the same instant drops nothing |
| Expiry.ExpireTimeline | client/expiry.go:116-129 | only dropped refs are deleted, and on success what is left follows the schedule |
| Expiry.StepKeepsRepresentative | client/expiry.go:43-95 | one run keeps a representative of every snapshot young enough |
| Expiry.NewestOfEachSlotSurvives | client/expiry.go:32-73 | over every sequence of snapshots and runs at any clock values and for all three windows in any order, a newest snapshot of each hour, UTC day and ISO week (section 4.1.4 of ISO 8601:2004) survives while its age is within the matching window |
| Clear.CollectManifestFiles | client/dirty.go:253-278 | adds exactly the files of one version's manifest |
| Clear.WalkVersions | client/dirty.go:219-243 | follows the parents from one head, on top of what earlier heads led to |
| Clear.ReachableFiles | client/dirty.go:183-198 | the files found are exactly those some version in the history of a ref names |
| Clear.RehashAll | client/dirty.go:149-167 | every path is unreadable, unversioned or grouped under the hash of its content, whatever the cache says |
| Clear.CollectChunkKeys | client/dirty.go:334-369 | the batch holds every chunk of every candidate, each key only once, with paths whose files list it |
| Clear.MissingOwners | client/dirty.go:309-316 | a path is reported if and only if it is recorded for a chunk that is missing; if none is, no chunk is missing |
| Clear.Judge | client/dirty.go:318-329 | a path of a group is safe, or it is missing and reported by name; nothing else is safe or reported |
| Clear.ConfirmChunks | client/dirty.go:286-330 | without a problem every candidate is safe and every chunk behind it is in the store |
| Clear.PresentChunksSuffice | client/dirty.go:78-84 | in an honest store a file whose list can be read and whose chunks are present can be put together |
| Clear.RestorableIffVerified | store/verify.go:75-94 | honest or not, a file can be put together if and only if VerifyFileContent would accept its list |
| Clear.WrongListPassesTheGate | client/dirty.go:286-330 | a well-formed list under the wrong ID is accepted by the store; the gate then calls a file safe that cannot be given back |
| Clear.ConfirmStoreHoldsHead | client/dirty.go:131-145 | passes exactly if the store can produce the head, or there is none |
| Clear.CheckClear | client/dirty.go:86-117 | from any state and any cache: without problems, Safe and Unversioned partition the scanned files; each safe content is in the history of a ref with its chunks in the store, no unversioned one is in any |
| Clear.CheckFiles | client/dirty.go:99-117 | its second half, once the files of the history are known |
| Clear.SnapshotUnversioned | client/clear.go:104-126 | whatever the cache, on success everything is safe by a second check and the ref names a snapshot of the scan; with a true cache the local manifest is the directory |
| Clear.ClearSpace | client/clear.go:56-95 | whatever the cache, whatever is deleted, even before a failure, the store can give back; on success everything but ignored files is gone |
| Clear.DeleteSafe | client/clear.go:76-95 | what a clean check calls safe can be given back and goes, and what is ignored only if asked for |
| Clear.LyingCacheIsCaught | client/clear.go:98-126 | where the cache takes a changed file for what it was, the snapshot names the old content, and every check without problems still calls the file unversioned |
| Clear.ClearAgainstALyingCache | client/clear.go:98-126 | so Clear does not go through for it |
| Clear.RestoreUndoesClearIff | client/restore.go:139-157 | clear, then restore gives every file that is not ignored back if and only if the local manifest listed exactly those files |
| Clear.RestoreMissesWhatIsNotListed | client/restore.go:139-157 | a file the local manifest does not list does not come back |
| Clear.SnapshotClearRestore | client/clear.go:48-55 | after the snapshot that unversioned files force, clear and restore is the identity |
| Clear.ClearThenRestore | client/restore.go:139-184 | both commands in a row: everything comes back if and only if the local manifest listed it, and always after a forced snapshot with a true cache |
| Clear.PassGate | client/checkout.go:154-172 | once passed, every file that is not ignored can be given back, whatever the cache |
| Clear.Checkout | client/checkout.go:154-271 | behind the gate: whatever a checkout changes or deletes, even before a failure, can be given back or is an ignored file at a path the target names; on success directory and head are those of the target |

## Left out

- Words.HashOfStep: the table is an arbitrary function from bytes to words; its derivation from a context string is not modelled.
- RefLock.RunsAreLinearizable: rename, create and remove are single steps; fsync, permissions and temporary files are not modelled, nor the in-process mutex, which only removes interleavings.
- History.HistoryIsLinear: nothing is claimed of refs under `snapshots/`, which expiry deletes.
- Closure.RefsAreCompleteAtEveryCrashPoint: graph and signature objects are not part of this step system; the local head, manifest and cache files are written in one step each.
- Closure.DeletionIsHarmlessUnlessRevived: time is not modelled; that the grace period outlasts a command is what its hypotheses stand for.
- Space.Space.Record: the refs are seen by one process; interleavings with other spaces are the subject of Protocol, and local files never fail to be written.
- Space.Space.CheckoutVersion: resolving abbreviated hashes; the gate in front of it is in Clear.Checkout.
- Space.Space.SyncOnto: assumes a true status cache, because the scan it merges goes through the cache and no second look follows; with a cache that lies, the side it takes for ours is what the cache says.
- Space.Space.RestoreManifest: the path-safety half of restore (SafeJoin, symbolic links, reserved names).
- Clear.ClearSpace: sizes, empty directories, symbolic links and read-only attributes.
- Clear.CheckClear: nothing is claimed of Safe when problems are reported; the walk over ignored files is only needed for the option that deletes them.
- Cache.MatchingEntryIsTrue: the cache file's text form; a file that changes while it is read.
- Merge.MergeIsPointwise: the result may hold paths that differ only in case, so it need not pass validation; that is found when it is next recorded.
- Diff.DiffManifests: contents are compared by ID, so an entry whose size alone differs is not a change.
- Expiry.Retain: durations are unbounded integers; time differences do not saturate. Bucket names are hour, day and week numbers instead of formatted strings.
- Expiry.NewestOfEachSlotSurvives: two runs do not compose into one later run, and nothing of the kind is claimed.
- Gc.ReachableObjects: refs that the listing skips because of their name are outside the assumption that every ref is listed.
- Gc.Collect: objects that appear while it runs are covered only in so far as they are not among the candidates or fall into the grace window.
- Values.TimeReadsBack: Go's time library; parsing is modelled by the strings it accepts and renders back unchanged, in UTC and whole seconds.
- Codec.ValidateManifest: Unicode normal form and case folding are parameters; path rules are modelled byte by byte.
- VersionCoder.MarshalVersion: strings are byte sequences, and a message need not be UTF-8, as in the source.
- Formats.CanonicalStoreIsOk: below the store, versions have whole seconds and years of four digits; what the printer makes of others is VersionTimes.TimedReadsBackIff.
- BLAKE3 is a function per kind that does not collide on the contents at hand, plus an append-only hasher.
- The blank-message check of Commit and Promote, author and lock checks, budgets, status, settings and configuration.
- Advisory locks (client/locks.go, client/lockstate.go, store/fs/locks.go).
- The local copy of chunk lists (client/cache.go:146-172), Timeline and Log listings (client/version.go:45-75, client/version.go:222-272).
- Command line, error wording, context cancellation, graphs (graph/) and signatures.
