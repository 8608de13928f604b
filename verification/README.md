# A verified model of debcraft

debcraft mirrors Debian repositories, scans packages and container images, and writes software bills of materials.
This project models the parts of it that hold most of the logic, in Dafny 4.11, and proves what they promise.
`dafny verify dfyconfig.toml` checks everything.

Each component is a module or a few. Code that changes things step by step is a method or a class with loops; it is
proved against functions, and what the code promises is proved about these functions. What the functions themselves
must be is stated once more without them, by characters, fields, bytes, responses or times alone, and proved to be
the same: such laws are in modules of their own.

- **SPDX license expressions** (`SpdxSyntax`, `SpdxTokenizer`, `SpdxLexing`, `SpdxParser`, `SpdxGrammar`,
  `SpdxAcceptance`, `SpdxPrinter`, `SpdxRoundTrip`, `SpdxExactness`, `SpdxReading`, `SpdxWords`, `SpdxLetterCase`,
  `SpdxAutomaton`): the tokenizer with its three kinds of identifier, the recursive-descent parser with mutable
  position and depth, and the printer that writes as few parentheses as it can. The parser accepts exactly the
  documented grammar (Annex D of SPDX 2.3) with at most 32 open parentheses, and reports an error at the first
  token with which no expression goes on; the expressions that survive printing and reading are characterised
  exactly, and so is what every other one with legal names is read as.
- **Mirror artifacts** (`MirrorProtocol`, `MirrorSafety`, `MirrorExactness`, `MirrorEngine`, `MirrorOutcomes`):
  repository file rows, files on disk and the phases of an artifact sync as a state machine in which a crash may
  come between any two commits and the tasks of a batch interleave freely. In every run whose batches are safe a
  file the incremental sync would skip is on disk with the digest the metadata lists, and which batches are safe is
  characterised over all runs of a sync. What a stage does to each row is told from the server's responses. The
  engine is a class whose every change of rows or disk is recorded, in ghost state, as a step of this machine.
- **Rate limiter** (`TokenBucket`, `TokenLaw`, `RateLimiter`): the token bucket over any interleaving of tasks,
  with an exact bound on what any window of time can be granted and the exact condition for each grant, and the
  acquire loop with its deadline.
- **Container layers** (`PosixPath`, `Whiteouts`, `LayerMerge`, `LayerNames`, `OciRule`): in-place deletion of
  files by whiteout markers, layer by layer, against a meaning given path by path, and against the OCI image
  specification (layer.md, on change types, additions and modifications, and whiteouts).
- **Control files** (`Letters`, `Lines`, `LineLaws`, `Stanzas`, `StanzaLaws`, `PrintLaws`, `Dictionaries`,
  `DictionaryLaws`): blocks, fields and continuation lines in the sense of section 5.1 of the Debian Policy Manual,
  shared by three formats: the dpkg status file (`Dpkg`, `DpkgListing`, `DpkgText`), the machine-readable copyright
  file of the Debian copyright-format 1.0 specification (`Dep5Document`, `Dep5Parser`, `Dep5Printer`,
  `Dep5RoundTrip`, `Dep5Kinds`, `Dep5Paragraphs`, `Dep5ReadBack`, `Dep5WellFormed`, `Dep5Dots`, `Dep5Exactness`,
  `Dep5Laws`, `Dep5Text`), and Packages index stanzas (`Decimals`, `NumberLaws`, `SourceField`, `Packages`,
  `PackagesRoundTrip`, `PackagesStored`, `PackagesProvenance`, `PackagesExactness`, `PackagesLaws`,
  `PackagesText`). For each, the values that survive writing and reading are characterised exactly, and so are
  those of what is parsed from any text.
- **ar archives** (`ArArchive`, `ArLaws`): the walk over member headers, on any bytes, with Python's slices.
- **SBOM identifiers** (`SbomIds`, `SbomLaws`), **migrations** (`Migrations`, `MigrationLaws`) and **copyright
  symlinks** (`SymlinkResolver`, `PathLaws`).

## How the source is represented

- Strings are sequences of characters; character classes, case and white space are those of ASCII.
- SHA-256 is a parameter of the mirror: any function from contents to strings, none of them empty where that
  matters. A download is given the server's responses, and a method that can be cancelled is told when.
- A repository is taken by itself, so that a URL and a local path are both determined by the relative path and rows
  and files are maps from it. Times, rates and token counts are real numbers.
- Python dictionaries that are printed again are sequences of fields with distinct names, in insertion order.
- Exceptions are values of `Result` with the data of the message; the wording of messages is not modelled.
- `requires` clauses of the mirror methods name the phase in which the engine calls them. The loop of the ar walker
  returns only when the walk ends, so `ArArchive.ParseArMember` requires that it does; when that is the case is
  proved beside it.

## Where the code does not do what is expected of it

Each of these is kept in the model as the code has it; the condition under which the expected property holds is
proved.

- The SPDX printer drops the parentheses of a compound expression under WITH, so such an expression is read back
  with another meaning (`SpdxExactness.CompoundWithChangesMeaning`) and other licenses
  (`SpdxReading.LicensesSurviveExactly`), or not at all when WITH comes to stand behind another WITH
  (`SpdxReading.ReadsExactly`). The comment in the tokenizer says that an identifier starts with a letter or digit;
  the code also lets it start with "-" or ".".
- A chain that is nested to the right is read back nested to the left; the condition is in
  `SpdxExactness.RoundTripsExactly`.
- The download of an artifact `x` removes `x.part`, which may itself be a cached artifact or another file of the
  same sync (`MirrorExactness.FileAndItsPartClash`), and a download without a listed digest is not verified. All
  runs of a sync keep the cached rows true if and only if neither can happen (`MirrorExactness.SyncIsSafeExactly`);
  the runs of `MirrorSafety.GoodRun` are those whose batches are such.
- A file is marked as indexed whatever its state: right exactly for one that is verified or indexed
  (`MirrorExactness.IndexingIsSafeExactly`), and wrong for one that a sync is replacing
  (`MirrorExactness.IndexingDuringSyncLies`).
- Whiteouts of a path the same layer writes, whiteouts of a directory by a plain marker, and members that change
  the type of a path without a whiteout are not handled as the OCI specification says
  (`OciRule.MergeFollowsOciExactly`). A layer that breaks off loses its whiteouts and can leave markers among the
  files (`LayerMerge.MarkersAreLeftExactly`).
- The Packages writer marks the continuation lines of a description only, so a folded Depends or other field that
  was read is not read back (`PackagesExactness.FoldedFieldIsLost`, `PackagesExactness.RoundTripsExactly`).
- The dpkg printer writes an empty continuation line as a lone dot, which the parser does not read back as an empty
  line (`Dpkg.EmptyContinuationBecomesDot`). The copyright parser does, so a line that is really a lone dot does
  not survive there (`Dep5Exactness.RoundTripsExactly`).
- A negative member size makes the ar walk stand still or go back, so that it may never end
  (`ArArchive.NegativeSizeNeverEnds`); it ends whenever it meets no size of -60 or less
  (`ArArchive.ForwardWalkEnds`), and within twice as many steps as there are bytes or never
  (`ArArchive.WalkEndsSoon`).
- A version that ends in "-2" can clash with a numbered identifier (`SbomIds.VersionsCanClash`).
- Two migration files with one version make every run that reaches them fail (`Migrations.RunSucceedsExactly`).

## Model

| member | source | states |
|---|---|---|
| SpdxTokenizer.SPDXTokenizer.TryDocumentRef | src/debcraft/domain/package_intelligence/spdx_tokenizer.py:30-40 | a DocumentRef match at a position appends exactly one token with the matched slice; otherwise nothing changes |
| SpdxTokenizer.SPDXTokenizer.TryLicenseRef | src/debcraft/domain/package_intelligence/spdx_tokenizer.py:42-52 | the same for a LicenseRef match |
| SpdxTokenizer.SPDXTokenizer.ConsumeIdentifier | src/debcraft/domain/package_intelligence/spdx_tokenizer.py:54-80 | the longest identifier run becomes one operator, license or OR_LATER token, whose trailing "+" is consumed |
| SpdxTokenizer.SPDXTokenizer.Tokenize | src/debcraft/domain/package_intelligence/spdx_tokenizer.py:82-137 | the loop over mutable position and token list computes the step function from offset 0, or stops at the first character no token can start with |
| SpdxLexing.StepFits | src/debcraft/domain/package_intelligence/spdx_tokenizer.py:91-137 | every emitted token is spelled as its kind demands, is the slice at its offset, and is not cut short |
| SpdxLexing.LexLossless | src/debcraft/domain/package_intelligence/spdx_tokenizer.py:82-137 | for every text: token values are slices at strictly increasing, non-overlapping offsets; every uncovered character is a blank, a tab, or the "+" right after an OR_LATER token; on failure the offset is that of a character that starts no token |
| SpdxWords.LicenseRefIs | src/debcraft/domain/package_intelligence/spdx_tokenizer.py:20-24 | a license reference is matched exactly where "LicenseRef-" stands, each character in either case, before a longest run of at least one name character |
| SpdxWords.DocumentRefIs | src/debcraft/domain/package_intelligence/spdx_tokenizer.py:14-18 | a document reference is matched exactly where "DocumentRef-" and a name, a colon and a license reference stand |
| SpdxWords.StepIs | src/debcraft/domain/package_intelligence/spdx_tokenizer.py:54-137 | told from the characters: at every position a token is emitted if and only if it stands there; a name that begins no reference is AND, OR or WITH exactly if it is that word in any case |
| SpdxWords.LexIs | src/debcraft/domain/package_intelligence/spdx_tokenizer.py:82-137 | for every text and token list: tokenizing gives these tokens if and only if the text consists of them and of blanks and tabs |
| SpdxLetterCase.LexIgnoresCase | src/debcraft/domain/package_intelligence/spdx_tokenizer.py:13-24 | a change of letter case anywhere in a text leaves every token where it is and of the kind it is |
| SpdxLetterCase.OperatorCaseIsIgnored | src/debcraft/domain/package_intelligence/spdx_tokenizer.py:65-72 | for every text: a change of letter case in its operators changes neither the tree it is parsed to nor the error |
| SpdxParser.SPDXExpressionParser.ParseOrExpr | src/debcraft/domain/package_intelligence/spdx_parser.py:75-89 | the loop that rebuilds the left operand agrees with the recursive OR level, and restores the depth on success |
| SpdxParser.SPDXExpressionParser.ParseAndExpr | src/debcraft/domain/package_intelligence/spdx_parser.py:91-105 | the same for the AND level |
| SpdxParser.SPDXExpressionParser.ParseWithExpr | src/debcraft/domain/package_intelligence/spdx_parser.py:107-130 | the same for the WITH level, with its error for a missing exception |
| SpdxParser.SPDXExpressionParser.ParseAtomExpr | src/debcraft/domain/package_intelligence/spdx_parser.py:132-204 | the same for groups and licenses, with the nesting limit and each error at its position |
| SpdxParser.SPDXExpressionParser.ParseTokens | src/debcraft/domain/package_intelligence/spdx_parser.py:38-61 | parsing resets the parser and accepts only when every token is used |
| SpdxGrammar.NestingIsMaxOpen | src/debcraft/domain/package_intelligence/spdx_parser.py:132-170 | the nesting of a derivation is the largest number of parentheses open at once in its tokens |
| SpdxAcceptance.ParsesDerivation | src/debcraft/domain/package_intelligence/spdx_parser.py:75-204 | wherever the tokens of a derivation lie, the parsing function of its level reads exactly them and gives its tree, or fails when it nests too deep |
| SpdxAcceptance.AcceptsExactlyTheGrammar | src/debcraft/domain/package_intelligence/spdx_parser.py:6-161 | for every token list: it is parsed to a tree if and only if it is the yield of a derivation of the documented grammar with that tree and at most 32 parentheses are open at once |
| SpdxAutomaton.ErrorsAreScanned | src/debcraft/domain/package_intelligence/spdx_parser.py:38-204 | for every token list: the parser accepts, or fails with the same problem at the same position, as a pass from left to right that only counts open parentheses |
| SpdxAutomaton.ErrorsAreFirst | src/debcraft/domain/package_intelligence/spdx_parser.py:38-204 | for every rejected token list: the tokens before the reported position begin some expression and with the next one they begin none; when the list ends too early the position is that of its last token or behind it |
| SpdxPrinter.CanonicalKeepsMeaning | src/debcraft/domain/package_intelligence/spdx_printer.py:43-62 | re-associating chains to the left keeps the licenses, their order and the truth value under every choice of accepted licenses |
| SpdxPrinter.CanonicalPrintsAlike | src/debcraft/domain/package_intelligence/spdx_printer.py:43-62 | the printer prints an expression and its left-nested form alike |
| SpdxPrinter.CanonicalIsLeftNested | src/debcraft/domain/package_intelligence/spdx_printer.py:43-62 | the canonical form is left-nested, and is the expression itself exactly when that is |
| SpdxRoundTrip.NameIsOneToken | src/debcraft/domain/package_intelligence/spdx_tokenizer.py:54-137 | a legal license spelling followed by a blank, ")" or the end is read as one token of the kind recovered from the spelling |
| SpdxRoundTrip.OperatorIsOneToken | src/debcraft/domain/package_intelligence/spdx_tokenizer.py:54-137 | " AND ", " OR " and " WITH " are read as one operator token |
| SpdxRoundTrip.PrintedLexes | src/debcraft/domain/package_intelligence/spdx_printer.py:21-62 | a printed expression is tokenized to the yield of a known concrete tree |
| SpdxExactness.ReadPrinted | src/debcraft/domain/package_intelligence/spdx_printer.py:21-62 | every expression with legal names, WITH on plain licenses and printed nesting up to 32 is read back as its left-nested form; deeper ones are refused |
| SpdxExactness.RoundTripKeepsMeaning | src/debcraft/domain/package_intelligence/spdx_printer.py:21-62 | such an expression keeps its licenses, their order and its truth value under every assignment, and is read back equal exactly when no OR is the right child of an OR and no AND of an AND |
| SpdxExactness.PrintsNoDeeper | src/debcraft/domain/package_intelligence/spdx_printer.py:43-62 | what a derivation stands for is printed with no deeper nesting than the derivation has |
| SpdxExactness.ReprintIsStable | src/debcraft/domain/package_intelligence/spdx_parser.py:38-204 | every accepted text without WITH on a compound prints no deeper than it was written, is accepted again, and is then a fixed point of print-then-read |
| SpdxExactness.DerivationHasNeeded | src/debcraft/domain/package_intelligence/spdx_parser.py:75-161 | every derivation of an expression has at least the parentheses the expression needs, so no text without them is read as it |
| SpdxExactness.RoundTripsExactly | src/debcraft/domain/package_intelligence/spdx_printer.py:21-62 | over all expressions: read(print(n)) == n if and only if names are legal, WITH is on plain licenses, chains are left-nested and the printed nesting is at most 32 |
| SpdxExactness.CompoundWithIsLost | src/debcraft/domain/package_intelligence/spdx_printer.py:39-41 | "(" + print(l) + ") WITH e" is accepted for every compound l, and what is read is never read back once printed |
| SpdxExactness.CompoundWithChangesMeaning | src/debcraft/domain/package_intelligence/spdx_printer.py:39-41 | the counterexample: "(A OR B) WITH e" prints as "A OR B WITH e", which accepts a plain A that the original does not accept |
| SpdxReading.ReadTreeDerives | src/debcraft/domain/package_intelligence/spdx_printer.py:39-62 | for legal names with no WITH printed directly behind another, the tokens of the printed text have the derivation in which every operator takes the nearest operands, whatever WITH was written on |
| SpdxReading.DerivationHasWithApart | src/debcraft/domain/package_intelligence/spdx_parser.py:107-130 | no derivation of the grammar has WITH, one token and WITH again |
| SpdxReading.ReadsExactly | src/debcraft/domain/package_intelligence/spdx_printer.py:21-62 | over all expressions with legal names: print(n) is read again if and only if no WITH is printed directly behind another and the printed nesting is at most 32, and then as that derivation stands for |
| SpdxReading.ReadLeaves | src/debcraft/domain/package_intelligence/spdx_printer.py:39-62 | what a printed expression is read as has at least as many licenses, and strictly more when WITH is on a compound |
| SpdxReading.LicensesSurviveExactly | src/debcraft/domain/package_intelligence/spdx_printer.py:21-62 | over all expressions with legal names: read(print(n)) succeeds with the same licenses in the same order if and only if WITH is on plain licenses only and the printed nesting is at most 32; and then the truth value is the same under every assignment |
| MirrorEngine.Engine.CommitInBatches | src/debcraft/infrastructure/mirror/_persistence.py:101-242 | the loop that updates rows and commits every 500 applies the update to every entry in order, and each commit is one step of the protocol |
| MirrorEngine.Engine.Stream | src/debcraft/infrastructure/mirror/download.py:485-493 | the chunks written one by one leave their concatenation in the partial file and touch nothing else |
| MirrorEngine.Engine.AttemptDownload | src/debcraft/infrastructure/mirror/download.py:405-540 | one attempt replaces the file only by verified content, in one step; a refused or broken attempt leaves at most the partial file |
| MirrorEngine.Engine.DownloadFile | src/debcraft/infrastructure/mirror/download.py:115-235 | the retry loop gives the verdict of the attempts in order; on success the file is the verified content, on failure only the partial file is gone |
| MirrorEngine.Engine.DownloadBatch | src/debcraft/infrastructure/mirror/download.py:237-308 | every task of a batch ends with its verdict, and the status list says so |
| MirrorEngine.Engine.DeduplicateEntries | src/debcraft/infrastructure/mirror/_checksums.py:23-55 | the loop over seen paths keeps the first entry of each path |
| MirrorEngine.Engine.GetArtifactChecksums | src/debcraft/infrastructure/mirror/_checksums.py:99-140 | a path has a checksum exactly when its row is VERIFIED or INDEXED, and then it is the recorded one |
| MirrorEngine.Engine.ComputeSyncDecisions | src/debcraft/domain/mirror/comparator.py:17-64 | one decision per entry, in order: skip exactly when the checksum is present and equal |
| MirrorEngine.Engine.CountResults | src/debcraft/infrastructure/mirror/engine.py:572-595 | the counters grow by the numbers of successes and failures and by the bytes of the successes |
| MirrorEngine.Engine.ProcessArtifactResults | src/debcraft/infrastructure/mirror/engine.py:559-601 | successes become VERIFIED with their path, failures count a retry, and the counters grow accordingly |
| MirrorEngine.Engine.StageArtifacts | src/debcraft/infrastructure/mirror/engine.py:457-509 | downloaded + skipped + failed grows by exactly the number of distinct relative paths; rows become those the verdicts demand; after a stage without failures nothing is left to download, and a stage with nothing to download changes neither rows nor disk |
| MirrorEngine.Engine.ResumeInterruptedDownloads | src/debcraft/infrastructure/mirror/engine.py:685-711 | interrupted rows are queued again and nothing else changes |
| MirrorEngine.Engine.RollbackCancellationState | src/debcraft/infrastructure/mirror/workflow.py:211-263 | QUEUED goes to DISCOVERED and then DOWNLOADING to QUEUED, in this order |
| MirrorEngine.Engine.MarkIndexed | src/debcraft/infrastructure/indexer/mirror_file_repository.py:147-188 | the one row becomes INDEXED and nothing else changes |
| MirrorEngine.Engine.CleanCache | src/debcraft/cli/mirror.py:641-694 | exactly the files that no VERIFIED or INDEXED row refers to are removed, partial files and files that cannot be removed aside |
| MirrorEngine.NothingLeft | src/debcraft/infrastructure/mirror/engine.py:473-509 | after all downloads of a stage succeeded every listed entry is skipped |
| MirrorOutcomes.DownloadIsDecided | src/debcraft/infrastructure/mirror/download.py:160-222 | by the responses alone: a download succeeds if and only if the first of three responses that is not tried again is below 400, complete and of the listed size and digest; it is cut short exactly if that response is cancelled or aborted, and fails exactly if it is another 4xx than 429 or all three are tried again |
| MirrorOutcomes.ChunksAreJoined | src/debcraft/infrastructure/mirror/download.py:485-493 | the content of a response is its chunks in order |
| MirrorOutcomes.StageDecidesRows | src/debcraft/infrastructure/mirror/engine.py:457-601 | after a completed stage, by the rows before and the responses: the row of the first entry of each path is unchanged if the file was VERIFIED or INDEXED with the listed digest, else VERIFIED at its path with the listed digest and size if its download succeeds, else QUEUED with one more failure or FAILED at the third; no other row changes |
| MirrorOutcomes.BytesAreAdded | src/debcraft/infrastructure/mirror/engine.py:572-580 | bytes of successful downloads are added up |
| MirrorOutcomes.CommitsAreSmall | src/debcraft/infrastructure/mirror/_persistence.py:122-153 | one commit of a batch changes the rows of at most 500 entries |
| MirrorOutcomes.RolledBack | src/debcraft/infrastructure/mirror/workflow.py:211-263 | after a rollback exactly the rows that were DOWNLOADING are QUEUED, those that were QUEUED are DISCOVERED, and nothing but these states has changed |
| MirrorOutcomes.Resumed | src/debcraft/infrastructure/mirror/engine.py:685-711 | after resuming no row is DOWNLOADING, those that were are QUEUED, and nothing else has changed |
| MirrorOutcomes.PartialFilesAreSpared | src/debcraft/cli/mirror.py:641-694 | cleaning spares exactly the names that a download of some file uses for its partial file |
| MirrorOutcomes.CachedFilesAreSpared | src/debcraft/cli/mirror.py:641-694 | when the rows are true, cleaning spares, of the files that are not partial, exactly those whose row is VERIFIED or INDEXED |
| MirrorSafety.DedupIsDistinct | src/debcraft/infrastructure/mirror/_checksums.py:23-55 | deduplication leaves distinct paths, the same set of paths, and first occurrences only |
| MirrorSafety.ToDownloadSelects | src/debcraft/domain/mirror/comparator.py:17-64 | what is downloaded is exactly what is not skipped |
| MirrorSafety.UpdateAllAt | src/debcraft/infrastructure/mirror/_persistence.py:101-269 | with distinct paths a batch update touches each listed row exactly once |
| MirrorSafety.UpdateAllFrame | src/debcraft/infrastructure/mirror/_persistence.py:101-269 | rows of other paths are untouched, and new rows appear only by creation |
| MirrorSafety.BatchKeepsTruth | src/debcraft/infrastructure/mirror/_persistence.py:127-207 | a batch cut off after any number of entries keeps every cached row true |
| MirrorSafety.StepKeepsInvariant | src/debcraft/infrastructure/mirror/engine.py:457-601 | each of the seventeen steps, a crash included, keeps: every cached row hashes to its recorded digest, and the phase is consistent; of a batch it asks that it is safe, of indexing that the row is cached |
| MirrorSafety.RunsKeepInvariant | src/debcraft/infrastructure/mirror/engine.py:457-601 | the invariant holds at every point of every run with safe batches |
| MirrorSafety.SkippedFilesAreCorrect | src/debcraft/domain/mirror/comparator.py:36-62 | in every run with safe batches, with a crash between any two commits, a file the incremental sync would skip is on disk with the listed digest |
| MirrorSafety.RunsGrowRetries | src/debcraft/infrastructure/mirror/_persistence.py:242-253 | over every run no row disappears and no retry count falls; if FAILED implies three retries at the start it does so at every point |
| MirrorExactness.SyncIsSafeExactly | src/debcraft/infrastructure/mirror/download.py:405-540 | over all runs of one sync from an idle, sound world, with crashes anywhere: every cached row stays true in every run if and only if each file to download has a digest and its partial file is neither a cached file nor another file to download |
| MirrorExactness.FileAndItsPartClash | src/debcraft/infrastructure/mirror/download.py:434-441 | the counterexample: a sync of "x" and "x.part" into an empty mirror has a run that ends with "x.part" recorded as verified and its file removed |
| MirrorExactness.UnlinkingPartIsSafeExactly | src/debcraft/infrastructure/mirror/download.py:439-441 | the single step: removing a stale partial file keeps the rows true exactly if that file is not itself a cached artifact |
| MirrorExactness.DigestIsCheckedExactly | src/debcraft/infrastructure/mirror/download.py:344-403 | a completed download is sure to have the listed digest exactly if a digest is listed |
| MirrorExactness.IndexingIsSafeExactly | src/debcraft/infrastructure/indexer/mirror_file_repository.py:147-188 | marking a row indexed keeps every cached row true, whatever the other rows and the disk are, if and only if the row was VERIFIED or INDEXED |
| MirrorExactness.IndexingDuringSyncLies | src/debcraft/infrastructure/indexer/mirror_file_repository.py:147-188 | the counterexample: a cached file that a sync has queued again with another digest is marked indexed, and its row is untrue |
| RateLimiter.TokenBucketRateLimiter.TryAcquire | src/debcraft/infrastructure/mirror/rate_limiter.py:65-73 | the section under the lock replenishes for the elapsed time, then takes a token if there is one |
| RateLimiter.TokenBucketRateLimiter.Acquire | src/debcraft/infrastructure/mirror/rate_limiter.py:48-92 | for any interference by other tasks: the loop ends, with fewer than timeout * rate + 1 attempts after the first; it gives up only at or after the deadline; uncontended with burst_size at least 1, two attempts are enough, and the token is granted whenever the timeout is longer than one pause of 1/rate and the lateness of the clock |
| TokenBucket.RunKeepsValid | src/debcraft/infrastructure/mirror/rate_limiter.py:40-46 | 0 <= tokens <= burst_size after any sequence of attempts |
| TokenBucket.WindowAccount | src/debcraft/infrastructure/mirror/rate_limiter.py:33-74 | inside a window, grants plus remaining tokens never exceed burst_size plus what accrued |
| TokenBucket.WindowBound | src/debcraft/infrastructure/mirror/rate_limiter.py:33-74 | for any interleaving and any s <= t, at most burst_size + rate * (t - s) acquisitions are granted in [s, t] |
| TokenBucket.WindowBoundIsReached | src/debcraft/infrastructure/mirror/rate_limiter.py:33-74 | for every k there is a run that is granted burst_size + k acquisitions in a window of k / rate, so the bound is exact |
| TokenLaw.GrantedExactly | src/debcraft/infrastructure/mirror/rate_limiter.py:40-74 | over every run, by grants and times alone: an attempt is granted if and only if the grants so far and this one are covered by the tokens at the start plus rate times the time since, and, from each earlier attempt and itself on, by burst_size plus rate times the time since |
| Whiteouts.VirtualFilesystem.ApplyWhiteouts | src/debcraft/domain/_whiteouts.py:57-74 | the loop that deletes keys in place leaves exactly one set difference, determined by the set of entries alone: order and duplicates do not matter and no surviving entry is altered |
| Whiteouts.ApplyingTwice | src/debcraft/domain/_whiteouts.py:57-74 | applying the same whiteouts again changes nothing |
| Whiteouts.NoMarkerSurvives | src/debcraft/domain/_whiteouts.py:57-74 | no marker a layer lists is left among the files |
| Whiteouts.MarkersInDirectory | src/debcraft/domain/_whiteouts.py:60-74 | "d/.wh.n" hides "d/n" and "d/.wh..wh..opq" covers everything below d, through basename, dirname and join |
| LayerMerge.Scanner.MergeLayer | src/debcraft/infrastructure/scanners/docker.py:280-317 | one layer merged in place: its regular files are written, and the names of all its entries are collected, normalized |
| LayerNames.SpellingsOfName | src/debcraft/domain/_archive_paths.py:53 | a name that begins with neither "/" nor "./" is what it is spelled with any number of leading slashes, with "./" and with both; a second "./" stays, and so does a dot that begins a name |
| LayerNames.RootHasNoContent | src/debcraft/infrastructure/scanners/docker.py:302-310 | the root of an archive is never a file or an entry |
| LayerMerge.Scanner.ExtractLayer | src/debcraft/infrastructure/scanners/docker.py:262-276 | one layer on top of the files so far: merged and then its whiteouts applied; one that breaks off leaves the files read until then, loses its whiteouts and is reported; one that cannot be opened changes nothing |
| LayerMerge.Scanner.ProcessLayers | src/debcraft/infrastructure/scanners/oci.py:256-282 | after any number of layers, whole, broken or unreadable, with cancellation checked before each, the files are what the layers mean path by path |
| LayerMerge.MeaningIsLastWriter | src/debcraft/infrastructure/scanners/docker.py:245-278 | a path has content c exactly if some layer is the last to write it, writes c, and neither it nor a later layer removes it |
| LayerMerge.MarkersAreLeftExactly | src/debcraft/infrastructure/scanners/docker.py:262-276 | over every run of layers a whiteout marker is left among the files if and only if a layer broke off after it wrote the marker and no later layer removes it |
| LayerMerge.NoMarkerHasMeaning | src/debcraft/infrastructure/scanners/docker.py:300-317 | over every run of layers none of which breaks off no whiteout marker name is left |
| LayerNames.SpellingIsIgnored | src/debcraft/infrastructure/scanners/docker.py:262-317 | over every run of layers: respelling members as "p", "/p" or "./p" changes what is at no path |
| OciRule.MergeFollowsOciExactly | src/debcraft/infrastructure/scanners/docker.py:280-317 | one merge gives a path what the OCI image specification (layer.md) says, if and only if the layer does not plainly white out its own file there, nor a directory above it, nor change the type of a file there without a whiteout |
| OciRule.OwnWhiteoutLosesFile | src/debcraft/domain/_whiteouts.py:57-74 | the counterexample: a layer with "n" and ".wh.n" loses its own file |
| OciRule.DirectoryWhiteoutKeepsFile | src/debcraft/domain/_whiteouts.py:57-74 | the counterexample: a layer with ".wh.d" over a lower "d/f" keeps it |
| OciRule.TypeChangeKeepsFile | src/debcraft/infrastructure/scanners/docker.py:302-317 | the counterexample: a layer with a regular file "d" over a lower "d/f" keeps both |
| OciRule.ImageFollowsOci | src/debcraft/infrastructure/scanners/oci.py:404-422 | an image whose layers do none of the three is merged as the specification says, type changes that it whites out included |
| Stanzas.SplitStanzas | src/debcraft/domain/_stanza_parser.py:18-49 | the line loop gives the maximal runs of non-blank lines |
| Stanzas.ParseStanzaFieldsOrdered | src/debcraft/domain/_stanza_parser.py:77-113 | the line loop folds every line into the ordered fields |
| Stanzas.ParsedIsLegal | src/debcraft/domain/_stanza_parser.py:93-113 | whatever is read has a one-line name that no continuation or colon could be part of, and no blank continuation line |
| Stanzas.DocLinesSplit | src/debcraft/domain/_stanza_parser.py:30-49 | a document written block by block is split into its blocks again, empty ones aside |
| StanzaLaws.BlocksIs | src/debcraft/domain/_stanza_parser.py:30-49 | for every text: the stanzas are exactly the runs of lines that are not only spacing, with lines of spacing between and around them |
| StanzaLaws.StanzaIsFields | src/debcraft/domain/_stanza_parser.py:93-113 | every stanza is read field by field: what stands before a line that starts a field is not changed by it or by what follows |
| StanzaLaws.OneField | src/debcraft/domain/_stanza_parser.py:93-113 | one field: the name before the first colon, the text behind it without one blank, and every later line that begins with a blank or a tab, without that character; other lines say nothing |
| LineLaws.WordsIs | src/debcraft/domain/scanner/dpkg_parser.py:141 | splitting gives exactly the words of a text, with spacing around and between them |
| Dpkg.Get | src/debcraft/domain/scanner/dpkg_parser.py:25-38 | the first field whose name is equal up to ASCII case |
| Dpkg.ClassifyPackage | src/debcraft/domain/scanner/dpkg_parser.py:99-193 | a stanza is listed, reported or dropped as its Package, Version and Status fields decide, with the diagnostic and its 1-based number |
| Dpkg.ParseDpkgStatus | src/debcraft/domain/scanner/dpkg_parser.py:56-96 | packages, diagnostics and stanzas of a text in one loop |
| DpkgListing.ListedExactly | src/debcraft/domain/scanner/dpkg_parser.py:122-193 | by the fields: a package is listed if and only if the first Package, Version and Architecture, names in any case, are its name, version and architecture (or there is none and it is empty), and the first Status has three words of which the first is install or hold and the third, installed or config-files, is its status |
| DpkgListing.DroppedExactly | src/debcraft/domain/scanner/dpkg_parser.py:155-157 | nothing is said of a stanza if and only if it is complete and the first word of its status is deinstall or purge |
| DpkgListing.ReportedExactly | src/debcraft/domain/scanner/dpkg_parser.py:122-177 | each diagnostic is given if and only if its cause is in the fields, with the number of the stanza and the name, word or value at fault |
| DpkgListing.FileIsListed | src/debcraft/domain/scanner/dpkg_parser.py:75-96 | the packages and diagnostics of a file are those of its stanzas, in order and numbered from one |
| Dpkg.FormatFieldValue | src/debcraft/domain/scanner/dpkg_printer.py:49-71 | continuation lines are indented by a blank and empty ones become a lone dot |
| Dpkg.FormatStanza | src/debcraft/domain/scanner/dpkg_printer.py:39-46 | the lines of all fields, joined |
| Dpkg.FormatDpkgStatus | src/debcraft/domain/scanner/dpkg_printer.py:11-36 | stanzas with one empty line between each two and one newline at the end |
| DpkgText.FileIs | src/debcraft/domain/scanner/dpkg_printer.py:11-71 | the text of every file, character by character: names, a colon and a blank, values with a blank after each newline and a dot where the next line is empty |
| Dpkg.RoundTripsExactly | src/debcraft/domain/scanner/dpkg_printer.py:11-71 | over all lists of stanzas: parse(format(ss)) == ss if and only if every stanza has a field and every field is legal |
| Dpkg.ReprintKeepsEverything | src/debcraft/domain/scanner/dpkg_parser.py:56-96 | for every text: printing what was parsed and parsing again gives the same packages and the same stanzas minus those without fields, and from then on nothing changes |
| Dpkg.EmptyContinuationBecomesDot | src/debcraft/domain/scanner/dpkg_printer.py:49-71 | the counterexample: a value that ends in an empty continuation line is read back ending in a dot |
| Dep5Parser.DEP5Parser.SplitParagraphs | src/debcraft/domain/package_intelligence/dep5_parser.py:63-83 | the line loop gives the blocks between blank lines |
| Dep5Parser.DEP5Parser.ParseFields | src/debcraft/domain/package_intelligence/dep5_parser.py:85-128 | the line loop over field, values and dictionary: lone dots, unindented lines without a colon, repeated fields |
| Dep5Parser.DEP5Parser.ExtraFields | src/debcraft/domain/package_intelligence/dep5_parser.py:151-154 | the fields not known, in order |
| Dep5Parser.DEP5Parser.ParseHeader | src/debcraft/domain/package_intelligence/dep5_parser.py:130-163 | the header or the missing Format |
| Dep5Parser.DEP5Parser.ParseFilesParagraph | src/debcraft/domain/package_intelligence/dep5_parser.py:165-206 | patterns, license name and text, or the first missing field |
| Dep5Parser.DEP5Parser.ParseLicenseParagraph | src/debcraft/domain/package_intelligence/dep5_parser.py:208-227 | license name and text of a standalone paragraph |
| Dep5Parser.DEP5Parser.Parse | src/debcraft/domain/package_intelligence/dep5_parser.py:24-61 | the document of a text, or its first error in document order |
| Dep5Laws.OneMoreField | src/debcraft/domain/package_intelligence/dep5_parser.py:85-128 | each line that starts a field assigns to its name, stripped and in lower case, its stripped text and all lines up to the next such line, lone dots as empty lines |
| Dep5Laws.DocumentIs | src/debcraft/domain/package_intelligence/dep5_parser.py:24-61 | by the fields of the paragraphs: a document is read if and only if the first paragraph says its header, and the others, each by its kind and in order, its files and license paragraphs |
| Dep5Laws.RefusedExactly | src/debcraft/domain/package_intelligence/dep5_parser.py:36-57 | for every text: it is refused if and only if it has no paragraph, the first one has no Format, or a later one has Files but no Copyright or no License; the error names the first such paragraph and its first missing field |
| Dep5Printer.DEP5Printer.FormatField | src/debcraft/domain/package_intelligence/dep5_printer.py:109-126 | the lines of one field, each ended |
| Dep5Printer.DEP5Printer.FormatHeader | src/debcraft/domain/package_intelligence/dep5_printer.py:46-67 | the header fields that are present, then the extra ones under title-cased names |
| Dep5Printer.DEP5Printer.FormatFilesParagraph | src/debcraft/domain/package_intelligence/dep5_printer.py:69-91 | the same for a Files paragraph |
| Dep5Printer.DEP5Printer.FormatLicenseParagraph | src/debcraft/domain/package_intelligence/dep5_printer.py:93-107 | the same for a License paragraph |
| Dep5Printer.DEP5Printer.Print | src/debcraft/domain/package_intelligence/dep5_printer.py:23-44 | paragraphs in order with one empty line between each two and one newline at the end |
| Dep5Text.DocumentIs | src/debcraft/domain/package_intelligence/dep5_printer.py:23-126 | the text of every document, field by field in order, with the titles as written and a blank, or a blank and a dot, after each newline of a value |
| Dep5Text.TitleCaseIs | src/debcraft/domain/package_intelligence/dep5_printer.py:129-135 | title case changes letters only in case: upper at the start and after hyphens, lower elsewhere |
| Dep5RoundTrip.TitleCaseKeeps | src/debcraft/domain/package_intelligence/dep5_printer.py:129-135 | title-casing a stored key is undone by lower-casing, and brings no colon, blank or newline |
| Dep5RoundTrip.ParagraphIsRead | src/debcraft/domain/package_intelligence/dep5_parser.py:85-128 | the printed lines of good fields with distinct names are read back as these fields, with lone dots as empty lines |
| Dep5ReadBack.ReadPrinted | src/debcraft/domain/package_intelligence/dep5_printer.py:23-44 | a well-formed document is read back as itself, with lone dots as empty lines |
| Dep5WellFormed.ReadIsGood | src/debcraft/domain/package_intelligence/dep5_parser.py:24-61 | every document that is read is well formed |
| Dep5Exactness.RoundTripsExactly | src/debcraft/domain/package_intelligence/dep5_printer.py:23-44 | over all documents: parse(print(d)) == d if and only if d is well formed and no line after a first one is a lone dot |
| Dep5Dots.ReadIsDotFree | src/debcraft/domain/package_intelligence/dep5_parser.py:97-122 | a text without an unindented line that is just "." is read without lone dots |
| Dep5Exactness.ReprintKeepsDocument | src/debcraft/domain/package_intelligence/dep5_parser.py:24-61 | for every accepted text: parse(print(parse(t))) succeeds, differs from parse(t) only in lone dots, equals it exactly when there are none (so whenever t has no unindented "." line), and is then stable |
| SourceField.MatchSplits | src/debcraft/domain/indexer/packages_parser.py:17 | what the pattern matches is a way to read the value as name, blanks and parenthesized version |
| SourceField.MatchIsShortest | src/debcraft/domain/indexer/packages_parser.py:17 | the lazy group: every way to read the value has a name at least as long as the matched one, so there is a match whenever there is a way |
| SourceField.VersionedIsReadExactly | src/debcraft/domain/indexer/packages_parser.py:165-190 | "name (version)" is read back if and only if both are non-empty and stripped, the name is on one line, no ")" is in the version, and every later "(" of the name is closed in it |
| SourceField.PlainIsReadExactly | src/debcraft/domain/indexer/packages_parser.py:165-190 | a name without a version is read back if and only if it is non-empty, stripped and does not itself look like a name with a version |
| Decimals.DecimalValue | src/debcraft/domain/indexer/packages_parser.py:71-78 | a decimal numeral is read as its number |
| NumberLaws.IntegerIs | src/debcraft/domain/indexer/packages_parser.py:71-78 | an integer is read from exactly the texts that write it: spacing around, at most one sign, and digits that count by their places, with single underscores between them |
| DictionaryLaws.PutIs | src/debcraft/domain/_stanza_parser.py:141-154 | assigning to a key gives it the value and leaves every other key alone |
| Packages.ParseWithContinuations | src/debcraft/domain/_stanza_parser.py:116-156 | the line loop over key, value lines and dictionary |
| Packages.Parse | src/debcraft/domain/indexer/packages_parser.py:27-50 | the metadata of every complete stanza, in order |
| PackagesLaws.OneMoreField | src/debcraft/domain/_stanza_parser.py:129-156 | a line with a colon and the indented lines after it assign to the name before the first colon |
| PackagesLaws.OneMoreLine | src/debcraft/domain/_stanza_parser.py:143-148 | a line without a colon and the indented lines after it say nothing |
| PackagesLaws.MetadataIs | src/debcraft/domain/indexer/packages_parser.py:52-111 | by the fields: a stanza gives metadata if and only if each required field is there with its value, the size writes a number that is not negative, the Source field tells the source by its shortest name, and the optional fields are as given, empty ones as absent |
| PackagesLaws.IndexIs | src/debcraft/domain/indexer/packages_parser.py:27-50 | the metadata of an index are those of its stanzas, in order; a stanza that gives none is left out |
| Packages.Format | src/debcraft/domain/indexer/packages_parser.py:113-163 | the stanza with required fields, the Source field in its four cases, and the optional fields that are present |
| PackagesText.FormattedIs | src/debcraft/domain/indexer/packages_parser.py:123-163 | the text of every stanza, field by field in order, with the Source field where name or version differ and a blank after each newline of a description |
| PackagesRoundTrip.ReadBack | src/debcraft/domain/indexer/packages_parser.py:113-163 | a stanza written for well-formed fields is read as the same metadata with the source as the Source field tells it |
| PackagesRoundTrip.ReadMarked | src/debcraft/domain/_stanza_parser.py:116-156 | a stanza whose continuation lines are all marked is read as the metadata it was written for, on any number of lines |
| PackagesProvenance.ReadIsDefined | src/debcraft/domain/_stanza_parser.py:116-156 | in every text, a value that is read under a key is spelled out under that key in consecutive lines, first line and marked continuations |
| PackagesStored.ReadIsGood | src/debcraft/domain/indexer/packages_parser.py:27-50 | for every text: the fields of all metadata that is read are as the writer needs them, newlines aside |
| PackagesExactness.OnlySingleLinesSurvive | src/debcraft/domain/indexer/packages_parser.py:113-163 | metadata with a newline in any field but the description is never among what is read back |
| PackagesExactness.RoundTripsExactly | src/debcraft/domain/indexer/packages_parser.py:113-163 | over all metadata: parse(format(m)) == [m] if and only if every field but the description is on one line, the fields are well formed and the source can be told from the Source field |
| PackagesExactness.ReprintKeepsExactly | src/debcraft/domain/indexer/packages_parser.py:27-163 | for every text and all metadata m parsed from it: parse(format(m)) == [m] if and only if m is on single lines, the description aside, and its source can be told |
| PackagesExactness.FoldedFieldIsLost | src/debcraft/domain/indexer/packages_parser.py:144-155 | the counterexample: a folded Depends field is read from a text, and what is written for it is not read back |
| ArArchive.ParseArMember | src/debcraft/infrastructure/package_intelligence/_ar_utils.py:25-88 | the offset loop returns the outcome of the walk from offset 8 whenever the walk ends, the magic bytes for an empty prefix, and an error without the magic |
| ArLaws.StepIs | src/debcraft/infrastructure/package_intelligence/_ar_utils.py:54-85 | by the bytes: at every offset that is not negative the walk ends without a member, refuses the header or the size, selects the bytes behind a header whose name begins with the prefix, or goes on behind them, to an even distance |
| ArLaws.SliceIs | src/debcraft/infrastructure/package_intelligence/_ar_utils.py:59-81 | slices with bounds below zero or outside the data are those of Python |
| ArLaws.MagicIs | src/debcraft/infrastructure/package_intelligence/_ar_utils.py:16 | the magic is "!<arch>" and a newline |
| ArArchive.OneEnd | src/debcraft/infrastructure/package_intelligence/_ar_utils.py:52-88 | a walk has at most one outcome |
| ArArchive.StepMoves | src/debcraft/infrastructure/package_intelligence/_ar_utils.py:66-85 | a step goes forward exactly when the size is above -60, and stands still exactly at -60 and -61 |
| ArArchive.ForwardWalkEnds | src/debcraft/infrastructure/package_intelligence/_ar_utils.py:54-85 | a walk that goes on from no header with a size of -60 or less ends |
| ArArchive.WalkEndsSoon | src/debcraft/infrastructure/package_intelligence/_ar_utils.py:54-85 | for all data a walk ends if and only if it ends within twice as many steps as there are bytes |
| ArArchive.ArchiveIsSearched | src/debcraft/infrastructure/package_intelligence/_ar_utils.py:52-88 | in every well-formed archive the walk ends and selects exactly the content of the first member whose trimmed name begins with the prefix, or reports that there is none |
| ArArchive.NegativeSizeNeverEnds | src/debcraft/infrastructure/package_intelligence/_ar_utils.py:70-85 | the counterexample: an archive of one header with the size "-60" and another name makes the loop run for ever |
| SbomIds.NumberIds | src/debcraft/domain/sbom/assembler.py:170-179 | the loop over counts keeps the first use of a base identifier and suffixes the k-th with k |
| SbomLaws.BaseIdIs | src/debcraft/domain/sbom/assembler.py:157-168 | a base identifier is the prefix, the name and the version, with hyphens for all but letters, digits and dots |
| SbomLaws.UsesAreNumbered | src/debcraft/domain/sbom/assembler.py:170-179 | the first use of an identifier keeps it, and each later one is suffixed with its number |
| SbomIds.IdsAreLegal | src/debcraft/domain/sbom/assembler.py:163-179 | every identifier begins with the package prefix, has only legal characters, and is not the root identifier |
| SbomIds.SuffixIsUnique | src/debcraft/domain/sbom/assembler.py:179 | a suffixed identifier splits into base and number in one way only |
| SbomIds.IdsAreDistinctExactly | src/debcraft/domain/sbom/assembler.py:170-179 | identifiers are pairwise distinct if and only if no base identifier is another one followed by "-" and a number that numbering hands out |
| SbomIds.VersionsCanClash | src/debcraft/domain/sbom/assembler.py:157-193 | the counterexample: two packages of one name and version beside the version with "-2" share an identifier |
| SbomIds.BuildDependsOnRelationships | src/debcraft/domain/sbom/assembler.py:262-310 | one DEPENDS_ON edge per package that the dependencies name, in order of first occurrence |
| SbomIds.Assemble | src/debcraft/domain/sbom/assembler.py:90-114 | the numbering, lookup and relationship loops together |
| SbomLaws.NameIs | src/debcraft/domain/sbom/assembler.py:286-294 | a dependency names the text before its first parenthesis or bar, without spacing around it |
| SbomLaws.RelatesExactly | src/debcraft/domain/sbom/assembler.py:90-114 | there is a relationship if and only if the root describes the package, or a part between commas of the dependencies of one package names another that is the last of that name |
| SbomIds.EndpointsAreElements | src/debcraft/domain/sbom/assembler.py:93-114 | every endpoint is the root or a package of the document, and DEPENDS_ON joins packages |
| SbomIds.RelationshipsAreDistinctExactly | src/debcraft/domain/sbom/assembler.py:98-114 | no relationship is stated twice if and only if the identifiers are distinct |
| Migrations.MigrationRunner.DiscoverMigrations | src/debcraft/infrastructure/database/runner.py:105-131 | the migrations among the file names, in stable order of version |
| MigrationLaws.VersionIs | src/debcraft/infrastructure/database/runner.py:28 | a file is a migration of a version if and only if its name is "v", the digits of that number, "_", any text on one line and ".py" |
| MigrationLaws.FoundIs | src/debcraft/infrastructure/database/runner.py:118-128 | the migrations found are the files whose names say so, in their order |
| MigrationLaws.SortIsStable | src/debcraft/infrastructure/database/runner.py:130 | migrations of one version stay in the order they were found |
| Migrations.MigrationRunner.RunPending | src/debcraft/infrastructure/database/runner.py:133-210 | the loop with savepoints: a failing migration, whatever it leaves behind, is rolled back with its history, everything before it stays, and exactly the applied versions are published |
| Migrations.SortedIsAscending | src/debcraft/infrastructure/database/runner.py:130-131 | sorting orders by version and keeps the migrations |
| Migrations.RunAppliesPrefix | src/debcraft/infrastructure/database/runner.py:161-200 | a run applies and records exactly the pending migrations before the first that fails or whose version is already recorded |
| Migrations.RunKeepsTruth | src/debcraft/infrastructure/database/runner.py:153-200 | whatever fails, the history is exactly the versions whose effects are in the database, each applied once |
| Migrations.RunGoesUp | src/debcraft/infrastructure/database/runner.py:153-161 | within a run versions go up strictly and none was recorded before |
| Migrations.RunSucceedsExactly | src/debcraft/infrastructure/database/runner.py:153-200 | a run succeeds if and only if no pending migration fails and no two pending ones share a version; then every version found is recorded |
| Migrations.RunAfterSuccessIsIdle | src/debcraft/infrastructure/database/runner.py:153-161 | after a full success a run with the same files changes nothing |
| Migrations.CallsKeepTruth | src/debcraft/infrastructure/database/runner.py:133-210 | over any sequence of calls with any files and failures the history stays true and nothing applied is undone |
| SymlinkResolver.Resolve | src/debcraft/domain/package_intelligence/symlink_resolver.py:23-84 | the hop loop with its visited set: the outcome is the end of the chain within 10 hops, circular when a path repeats within them, too deep otherwise |
| PathLaws.LinkIs | src/debcraft/domain/package_intelligence/symlink_resolver.py:87-98 | a content is a link if and only if, spacing around it aside, it is one line that begins with "/", "./" or "../" |
| PathLaws.HopIs | src/debcraft/domain/package_intelligence/symlink_resolver.py:33-76 | one hop, by the tables: no owner, no content, the content itself, or on to where the link points from its directory |
| PathLaws.UpIsUndone | src/debcraft/domain/package_intelligence/symlink_resolver.py:36-37 | "a/x/../b" is "a/b" for every a that does not end in a slash, every name x and every b |
| PathLaws.NothingIsDropped | src/debcraft/domain/package_intelligence/symlink_resolver.py:36-37 | "a/./b" and "a//b" are "a/b" |
| PathLaws.NormalIsKept | src/debcraft/domain/package_intelligence/symlink_resolver.py:36-37 | names below any number of parents stay as they are, and from the root the parents are dropped |
| PathLaws.FirstSlashesAre | src/debcraft/domain/package_intelligence/symlink_resolver.py:36-37 | two slashes at the start stay two and any other number is one |
| SymlinkResolver.RepeatedPathIsForever | src/debcraft/domain/package_intelligence/symlink_resolver.py:39-45 | once a path repeats, following the chain never ends |
| SymlinkResolver.ResolutionIsTrue | src/debcraft/domain/package_intelligence/symlink_resolver.py:28-84 | for every chain: circular only when following would never end; a chain that ends within 10 hops gets its true outcome and one that ends later is too deep; an endless chain is circular exactly when a path repeats within 10 hops |

## Left out

- HTTP, database, tar, ISO, squashfs and guestfs libraries: only their outcome and its effect on the state.
- Release and index files of the mirror: they are replaced on disk before their rows, so the invariant is about
  artifacts only.
- Database errors that the code logs and swallows, and a sync of several repositories that share paths.
- The size of reclaimed files in cache cleaning, progress bars, prompts, logging, events of the mirror and the
  command line.
- MirrorEngine.Engine.DownloadBatch: runs the tasks of a batch one after the other; their interleaving is in the
  steps of MirrorProtocol, over which the invariant is proved.
- MirrorEngine.Engine.DownloadFile: the delay between attempts and its random jitter.
- LayerMerge.Scanner.ExtractLayer: the part of a member that was being read when the layer broke off; it is not
  stored.
- MirrorEngine.Engine.MarkIndexed: a call while a sync is under way changes the row but is no step of the protocol;
  when it keeps the rows true is stated in MirrorExactness.IndexingIsSafeExactly.
- OciRule.MergeFollowsOciExactly: names are compared as they are spelled, as the merge does, and hard links and
  devices are files without content.
- RateLimiter.TokenBucketRateLimiter.Acquire: rounding of floating-point numbers, fairness among waiters and their
  cancellation.
- ArArchive.ParseArMember: decompression of the selected bytes.
- SbomIds.Assemble: names, checksums, licenses and references of the packages, the checks in their constructors,
  the namespace and the timestamps.
- Migrations.MigrationRunner.RunPending: the transaction around the savepoints, which the caller commits, and the
  duration in the history.
- Unicode: digits, letters, white space and case outside ASCII.
- License text matching, package URLs, URL joining, the SBOM writers and the other value objects: single branches
  or library calls.
