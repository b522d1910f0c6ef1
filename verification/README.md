# Verified models of gmax's recovery, artifact, maintenance and settings code

This project models the parts of gmax whose correctness is decided by an algorithm or a protocol rather than by
plumbing, and proves what each of them promises. Each module follows one file of the repository.

| module | what it models |
|---|---|
| `Basics`, `Sorting` | what the modules share: options, results, joining, and sorting by a comparison |
| `ByteStrings`, `Arrow` | byte strings; Arrow-style arrays (offset slices, null bits, dictionaries, lists) and their logical rows |
| `RowEncoding`, `Recovery`, `Fingerprint` | the recovery evidence: canonical row encoding, the order-free comparison ledger, the streaming column fingerprint |
| `Json`, `JsonGrammar`, `JsonCompact`, `TensorHeader`, `TensorArtifact`, `HeaderGrowth` | the tensor file: JSON printer and parser, the grammar of RFC 8259 that the parser accepts, that the printer is compact, the header reader, the text-only rewrite and its re-check, and the sources it cannot rewrite |
| `IndexCatchUp`, `CatchUpDrain`, `Retention` | bounded full-text index catch-up, the backlogs it can drain, and bounded version pruning |
| `Supervisor` | the guarded operation, in which every step may fail |
| `ArtifactTree`, `DependencyNotices` | the artifact directory walk, and the dependency worklist of the licence notices |
| `SkillBlocks`, `PathGlobs`, `HookSettings`, `ContextBudget` | marker blocks in AGENTS.md, sandbox allow entries, hook installation, token budgets |

`dafny verify dfyconfig.toml` checks everything.

## How it is modelled

* Code that updates state is a class or a method with loops, proved against functions and predicates about which the
  lemmas speak. Code made of expressions is functions.
* Exceptions are `Result`, `Option`, `Outcome` or similar values, and every error path is modelled.
* Native engines, the host and the file system are adversarial: the state found after an operation is an arbitrary
  value (`World.after`), so a conclusion about it rests on the program's own checks only.
* SHA-256 is an uninterpreted function. Where a statement needs it, the function is assumed injective; so is the
  serialisation of schemas. The text of a row's id is an arbitrary function `str`.
* Reads from a file may be as short as they like, but not empty before its end (`Reader.Read`).

## What the proofs found

* Two tables with the same schema and rows can have different fingerprints: a scan that yields no batch records no
  channels at all, while a scan that yields one empty batch records those of empty columns (`Fingerprint.PrintsAgree`;
  `Fingerprint.SameRowsDifferentPrints` gives two such tables).
* `read_header` asks for slightly more than that every payload byte lies in exactly one tensor: an empty tensor
  strictly inside another one is refused. Empty tensors at a boundary are fine (`TensorHeader.SweepDecidesTiling`,
  `TensorHeader.InteriorEmptyRangeRefused`).
* The rewritten artifact is refused by its own re-check exactly when its padded header is longer than the reader's
  bound (`TensorArtifact.NewFileReads`). Names are printed as ASCII escapes, so the new header can be longer than the
  source's: a name of DELETE characters grows sixfold, and `HeaderGrowth.HeaderOutgrowsBound` gives well-formed BF16
  sources that cannot be rewritten for this reason alone. The shipped command never meets one, because
  `prepare_gemma.py:93` accepts a single pinned source.
* A backlog of index catch-up drains exactly when, batch after batch, the first live row and everything ahead of it fit
  into one run and the listing has room for the new segments (`CatchUpDrain.DrainsExactly`). A fragment over a limit
  with live rows in it or behind it, or a long enough stretch of deleted rows ahead of live ones, is refused for ever.
* The supervisor tests containment before it reports broken limits, so a containment error takes the place of a limit
  breach that the same sample showed. The run still fails (`Supervisor.BreachRecordedUnlessMasked`).
* With two or more complete marker blocks, removing the later ones can join marker halves into a new block, and then a
  text of the user's counts as a block, which a second install removes. Neither happens exactly when the joined tail
  holds no complete block (`SkillBlocks.InstallIdempotent`, `SkillBlocks.InstallPreserves`,
  `SkillBlocks.JoinedHalvesBreakIdempotence`).
* `**` compiles to `.*`, which stops at line ends: a path with a newline can satisfy the glob and fail its regular
  expression. The two agree on every path exactly for patterns without `**` (`PathGlobs.GlobsEverywhere`). For entries
  that name a directory the containment test makes up for it (`PathGlobs.DirectoryEntry`).
* Uninstalling hooks does not restore an empty `hooks` object: it is removed altogether (`HookSettings.EmptyHooksLost`).

## Model

| member | source | states |
|---|---|---|
| Arrow.SliceRows | scripts/compact-recovery.py:95-106 | slicing an array takes the same stretch of its logical rows, for every kind of buffer |
| Arrow.LogicalHasType | scripts/compact-recovery.py:84-123 | every row of a valid array is a value of the array's type |
| Arrow.FromRowsRoundTrip | scripts/compact-recovery.py:84-123 | every sequence of typed rows is the content of some array: the model of arrays leaves none out |
| RowEncoding.NumbersDecodable | scripts/compact-recovery.py:97-99 | the fast path for number children (validity bytes, then data) is uniquely decodable for a known count |
| RowEncoding.ListDecodable | scripts/compact-recovery.py:94-111 | encodings of lists and fixed-size lists of one type, followed by anything, agree only for equal items and equal rests |
| RowEncoding.UniquelyDecodable | scripts/compact-recovery.py:84-123 | for every nested type, encode(v) + s == encode(w) + u implies v == w and s == u |
| RowEncoding.RowDetermined | scripts/compact-recovery.py:128-136 | the concatenated column bytes of a row determine every field, nulls and lengths included |
| RowEncoding.Decode | scripts/compact-recovery.py:85-86 | dictionary decoding keeps the logical rows and yields an array of the value type |
| RowEncoding.NumberRunRefines | scripts/compact-recovery.py:77-82 | the columnar fast path over any stretch of children equals the reference encoding of their rows |
| RowEncoding.EncodeColumnRefines | scripts/compact-recovery.py:84-123 | the columnar, offset-sliced encoder equals the row-by-row reference for every valid array, whatever lies under null parents or outside the slice |
| Recovery.CountRows | scripts/compact-recovery.py:144-145 | the table's row count is the number of its live rows |
| Recovery.IdColumn | scripts/compact-recovery.py:129-129 | the column tested for missing ids is the only one named "id", and the last column when there is no such name or more than one |
| Recovery.RowBytes | scripts/compact-recovery.py:133-136 | feeding a row's column bytes in order gives the row's encoding |
| Recovery.RowDigests | scripts/compact-recovery.py:125-136 | the scan yields the evidence of the rows in order, up to the first row without an id, and fails exactly there or on an unsupported table |
| Recovery.EvidenceDecides | scripts/compact-recovery.py:139-167 | with an injective digest, equal multisets of evidence mean equal multisets of full rows, and conversely |
| Recovery.RecordAll | scripts/compact-recovery.py:153-156 | after the first scan each ledger count is the multiplicity of its evidence |
| Recovery.SettleAll | scripts/compact-recovery.py:158-163 | ledger plus consumed prefix stays equal to the first multiset, no count goes negative, and it stops exactly at a row nothing is owed for |
| Recovery.PrefixVerdict | scripts/compact-recovery.py:158-166 | a scan that stopped early means different multisets; one that finished means equal ones and a ledger of zeros |
| Recovery.CompareVersions | scripts/compact-recovery.py:139-169 | success exactly when the spool is new, schemas agree, both tables can be scanned, no row lacks a value in the one column named "id" (in the last column when no or several columns have that name) and the multisets of full rows are equal; the last two checks never fire |
| Fingerprint.StreamAppend | scripts/compact-recovery.py:27-57 | sending two runs of rows is sending their concatenation, on every channel of every nested type |
| Fingerprint.StreamsDetermine | scripts/compact-recovery.py:30-56 | columns of one type whose channels all agree hold the same logical values |
| Fingerprint.FixedFlattened | scripts/compact-recovery.py:41-43 | flattening a fixed-size list array without nulls gives exactly the items of its rows |
| Fingerprint.ListFlattened | scripts/compact-recovery.py:37-40 | the same for variable-size lists, with lengths read off the offsets |
| Fingerprint.TextsFlattened | scripts/compact-recovery.py:44-50 | the buffer stretch between the first and the last offset is exactly the rows' texts |
| Fingerprint.Channels.Update | scripts/compact-recovery.py:27-28 | a channel is created on first use and extended afterwards; no other channel changes |
| Fingerprint.Channels.Column | scripts/compact-recovery.py:30-56 | feeding an array extends exactly its channels by the streams of its logical rows; fails exactly on an unsupported type |
| Fingerprint.Digest | scripts/compact-recovery.py:58-66 | the fingerprint is that of the table's live rows, however they are cut into batches |
| Fingerprint.PrintsAgree | scripts/compact-recovery.py:20-66 | two fingerprints agree exactly when schemas and live row sequences do, and neither or both tables yielded no batch (when there are columns) |
| Fingerprint.SameRowsDifferentPrints | scripts/compact-recovery.py:58-66 | two tables with one schema and no rows, one scanned without a batch and one with an empty batch, whose fingerprints differ |
| Json.IntRoundTrip | mlx-embed-server/prepare_gemma.py:49-49 | every printed integer reads back, whatever delimiter follows |
| Json.NameRoundTrip | mlx-embed-server/prepare_gemma.py:127-127 | every name, printed with ASCII escapes, reads back |
| Json.ValueRoundTrip | mlx-embed-server/prepare_gemma.py:127-127 | every printable value reads back and leaves the rest of the input |
| Json.LoadsPrinted | mlx-embed-server/prepare_gemma.py:127-128 | a printed value padded with spaces reads back as that value (trailing white space is legal under section 2 of RFC 8259) |
| JsonGrammar.LoadsMeans | mlx-embed-server/prepare_gemma.py:49-49 | a text loads as a value exactly when the grammar (sections 2 to 7 of RFC 8259, no name twice in an object) spells that value with it |
| JsonGrammar.ValueRead | mlx-embed-server/prepare_gemma.py:49-49 | every spelling of a value is read as that value, whatever may follow it |
| JsonGrammar.ValueSpelled | mlx-embed-server/prepare_gemma.py:49-49 | whatever is read as a value is a spelling of it |
| JsonCompact.UnitPrinted | mlx-embed-server/prepare_gemma.py:127-127 | every code unit is printed as legal, visible ASCII, with lower-case hexadecimal digits |
| JsonCompact.NoShorterText | mlx-embed-server/prepare_gemma.py:127-127 | no text that loads as a value without DELETE characters in its names is shorter than the printed one |
| ByteStrings.EightBytes | mlx-embed-server/prepare_gemma.py:46-46 | the length field has its lowest byte first, byte by byte |
| TensorHeader.HeaderFieldsMean | mlx-embed-server/prepare_gemma.py:41-51 | a file has these header fields exactly when its size and length field are in bounds and the bytes behind the length field load as that object |
| TensorHeader.WidthMeans | mlx-embed-server/prepare_gemma.py:13-13 | which types are known, and how many bytes an element of each has |
| TensorHeader.ProductIsVolume | mlx-embed-server/prepare_gemma.py:66-66 | the number of elements is the product of the dimensions, taken from either end |
| TensorHeader.ReadsDescribed | mlx-embed-server/prepare_gemma.py:54-68 | an entry is read as a tensor exactly when it is an object that gives this type, these dimensions and these offsets, and the offsets enclose just its elements |
| TensorHeader.ReadTensor | mlx-embed-server/prepare_gemma.py:56-68 | an accepted entry has a known type, at most eight dimensions and a range inside the payload of exactly product(shape) * width bytes |
| TensorHeader.CollectRanges | mlx-embed-server/prepare_gemma.py:52-68 | the loop over entries fails exactly when some entry is not a tensor, and else gives all their ranges |
| TensorHeader.Sweep | mlx-embed-server/prepare_gemma.py:69-75 | the loop over sorted ranges accepts exactly those that chain from zero to the payload's end |
| TensorHeader.SweepDecidesTiling | mlx-embed-server/prepare_gemma.py:69-75 | sort and sweep accept exactly the range lists in which every byte lies in one and only one range and no range starts strictly inside another |
| TensorHeader.InteriorEmptyRangeRefused | mlx-embed-server/prepare_gemma.py:69-73 | covering every byte once is not enough: an empty range inside another is refused |
| TensorHeader.ReadHeader | mlx-embed-server/prepare_gemma.py:41-76 | accepts exactly the well-formed files, and returns their header and base |
| TensorArtifact.SortEntriesOrders | mlx-embed-server/prepare_gemma.py:123-123 | sorting keeps the entries, and of two names the earlier one begins the later one or is smaller where they first differ |
| TensorArtifact.Retained | mlx-embed-server/prepare_gemma.py:96-96 | exactly the tensors whose names begin with "language_model." are kept |
| TensorArtifact.NewFieldReads | mlx-embed-server/prepare_gemma.py:122-126 | each new header entry reads back as the same tensor at its new offsets |
| TensorArtifact.NewFieldsTile | mlx-embed-server/prepare_gemma.py:122-126 | the new offsets tile the new payload |
| TensorArtifact.PayloadAt | mlx-embed-server/prepare_gemma.py:133-143 | tensor i occupies its own stretch of the new payload, with its source bytes |
| TensorArtifact.NewFileReads | mlx-embed-server/prepare_gemma.py:127-146 | the reader accepts the new file exactly when the padded header fits its bound, and then sees the new entries |
| TensorArtifact.NewTensorsSame | mlx-embed-server/prepare_gemma.py:122-144 | in the new file every retained tensor has its name, shape and bytes |
| TensorArtifact.Reader.Read | mlx-embed-server/prepare_gemma.py:138-138 | a read returns some bytes from the position on, at most as many as asked, none only at the end |
| TensorArtifact.ReadFully | mlx-embed-server/prepare_gemma.py:135-143 | for any pattern of short reads, the chunk loop gives exactly the bytes asked for, and fails exactly when the file ends first |
| TensorArtifact.CopyTensors | mlx-embed-server/prepare_gemma.py:130-144 | the copy is never truncated; it writes the header, then the tensors one after another, and records their digests |
| TensorArtifact.Write | mlx-embed-server/prepare_gemma.py:122-144 | writing gives the file of the new layout; it fails exactly when the length field cannot carry the header |
| TensorArtifact.Recheck | mlx-embed-server/prepare_gemma.py:146-159 | passes exactly when every tensor of the derived file has its recorded digest |
| TensorArtifact.WriteAndRecheck | mlx-embed-server/prepare_gemma.py:122-159 | only the header bound can stop it; the digest comparison never fails |
| TensorArtifact.ParametersHalveBytes | mlx-embed-server/prepare_gemma.py:162-164 | parameters * 2 == tensorBytes |
| TensorArtifact.TextCarried | mlx-embed-server/prepare_gemma.py:95-144 | every text tensor of the source is in the rewritten file under its name, with its type, shape and bytes; nothing else is, and no name is there twice |
| TensorArtifact.BuildTextArtifact | mlx-embed-server/prepare_gemma.py:95-168 | succeeds exactly for a well-formed source with text tensors, all BF16, within the output bound, whose new header fits; then the result reads back, and it holds exactly the tensors whose names begin with "language_model.", each once, with its type, shape and bytes |
| HeaderGrowth.RawHeaderLoads | mlx-embed-server/prepare_gemma.py:49-49 | a header whose name stands unescaped loads as that name and its entry |
| HeaderGrowth.HeaderOutgrowsBound | mlx-embed-server/prepare_gemma.py:127-146 | a family of well-formed sources with one BF16 text tensor, kept from being built only by the length of the escaped header |
| IndexCatchUp.ScanContent | lance-maintenance/fts.py:193-200 | the early-exit byte scan decides as the full sum would, and is exact when the limit holds |
| IndexCatchUp.IndexListedMeans | lance-maintenance/fts.py:95-103 | a qualified listing has at most 256 segments, some of the index, and those are full-text segments on the content column |
| IndexCatchUp.SelectBatch | lance-maintenance/fts.py:186-209 | picks the longest prefix of pending fragments within both limits, or fails exactly when that prefix may not be used |
| IndexCatchUp.LongestUnique | lance-maintenance/fts.py:186-209 | there is one longest prefix |
| IndexCatchUp.Prepare | lance-maintenance/fts.py:164-221 | admits a batch exactly when the table meets the preconditions and its longest prefix is admissible |
| IndexCatchUp.PlanUnique | lance-maintenance/fts.py:164-221 | a table has at most one plan |
| IndexCatchUp.Run | lance-maintenance/fts.py:224-332 | success exactly when the one plan passes every check; then the table advanced by that batch, what a reader and the file system show is otherwise as before, and with a backlog a committing run strictly lowers remainingRows; a table is refused for automatic cleanup only if a key of its configuration begins with "lance.auto_cleanup." |
| IndexCatchUp.VerifiedPreserves | lance-maintenance/fts.py:297-318 | the checks imply, item by item, that fragments, rows, schema, configuration, tags, payload files and every other index are as they were |
| IndexCatchUp.ListingAfterRun | lance-maintenance/fts.py:294-316 | the checks alone imply that the new segment listing is the old one plus, after a commit, one segment for exactly the batch |
| IndexCatchUp.CompletedRunAdvances | lance-maintenance/fts.py:297-324 | whatever the engine did, a completed run kept data and old segments, covers exactly the batch more, stays free of overlap and raised the version by one per commit |
| IndexCatchUp.PendingAfterCommit | lance-maintenance/fts.py:171-173 | a commit takes its batch off the front of the pending list |
| IndexCatchUp.HistoryKeeps | lance-maintenance/fts.py:210-252 | over any sequence of completed runs: data untouched, segments kept and disjoint, coverage grown by exactly the chosen batches, versions and rows accounted for |
| IndexCatchUp.TwoBatches | lance-maintenance/fts.py:186-209 | two consecutive batches together exceed the row limit or the byte limit |
| IndexCatchUp.CommitsBounded | lance-maintenance/fts.py:186-209 | over any history, check-only and idle runs included, commits number at most 1 + 2 * (pending rows / MAX_ROWS) + 2 * (pending bytes / MAX_CONTENT_BYTES) |
| IndexCatchUp.BacklogDrains | lance-maintenance/fts.py:285-324 | among any runs, exactly those told to commit that find a backlog lower it, each strictly, and there are no more of them than that bound |
| IndexCatchUp.RunEffect | lance-maintenance/fts.py:285-296 | a committing run takes its batch off the front of the backlog, up to a fragment that no longer fits; any other run leaves the backlog alone |
| CatchUpDrain.FaithfulRunSucceeds | lance-maintenance/fts.py:255-332 | against a faithful engine and host, a run passes every check wherever a plan exists |
| CatchUpDrain.NextBatch | lance-maintenance/fts.py:186-213 | the backlog has a next batch exactly when its first live row and everything ahead of it fit together |
| CatchUpDrain.PreparedExactly | lance-maintenance/fts.py:164-221 | a table with a backlog can be prepared exactly when there is room for a segment and a next batch; otherwise every run refuses it |
| CatchUpDrain.RunKeepsSound | lance-maintenance/fts.py:285-324 | whatever the engine did, a completed run keeps the table sound, takes one slot per commit and everything that fits off the backlog |
| CatchUpDrain.OnlyDrainable | lance-maintenance/fts.py:164-332 | whatever the engine does, runs reach an empty backlog only from a drainable one |
| CatchUpDrain.FaithfulRunsDrain | lance-maintenance/fts.py:164-332 | from a drainable backlog faithful runs reach an empty one |
| CatchUpDrain.DrainsExactly | lance-maintenance/fts.py:164-332 | some runs empty the backlog exactly when it is drainable |
| CatchUpDrain.PassableDrains | lance-maintenance/fts.py:186-213 | a backlog in which every live fragment fits together with the dead stretch ahead of it drains, within the bound on commits |
| CatchUpDrain.OversizeBlocks | lance-maintenance/fts.py:189-203 | a fragment over a limit with live rows in it or behind it is never passed |
| CatchUpDrain.DeadStretchBlocks | lance-maintenance/fts.py:201-213 | deleted rows of more than twice the row limit ahead of live ones are never passed |
| Retention.Classify | lance-maintenance/prune.py:132-139 | one pass over the listing splits it into protected and eligible versions, each eligible one once |
| Retention.Prune | lance-maintenance/prune.py:110-179 | success exactly when the pass was permitted and a fresh reader finds the oldest eligible versions up to the bound gone and nothing else changed; then neither the current version nor one that a tag names was removed, every other version is listed as before, protected ones read the same, and removed plus remaining is all that was eligible |
| Retention.DeletedMeans | lance-maintenance/prune.py:132-163 | what is deleted was listed, older than the cutoff, not current and named by no tag; what is not deleted stays listed |
| Retention.ChoiceSame | lance-maintenance/prune.py:139-142 | which versions a pass deletes is determined |
| Retention.SettledIsPass | lance-maintenance/prune.py:152-167 | a successful bounded pass is a step of the repeated passes below |
| Retention.PassDrops | lance-maintenance/prune.py:139-142 | a pass takes its choice off the front of the eligible list |
| Retention.PassesPrefix | lance-maintenance/prune.py:139-142 | after n passes exactly the n * bound oldest eligible versions are gone, oldest first |
| Retention.PassesMeetUnbounded | lance-maintenance/prune.py:129-175 | bounded passes meet the unbounded pass after ceil(eligible / bound) of them and no sooner; protected versions, and those that a tag names, are never removed, and removed plus eligible is conserved |
| Supervisor.ReasonsDecide | scripts/guard-local-operation.py:133-145 | a sample gives no reason exactly when it is within every limit and in time |
| Supervisor.ReasonsSpelled | scripts/guard-local-operation.py:134-145 | each reason is given exactly when its limit is broken |
| Supervisor.JoinMeans | scripts/guard-local-operation.py:148-149 | the message is the reasons with "; " between any two |
| Supervisor.PeakMeans | scripts/guard-local-operation.py:185-194 | the recorded extremes bound every sample, and some sample attains each |
| Supervisor.EarliestInTime | scripts/guard-local-operation.py:154-249 | the earliest fault is the first in the order of the steps; a fault of the run is the one recorded, whatever the cleanup did |
| Supervisor.PollsInTime | scripts/guard-local-operation.py:185-194 | the first round that does not go on decides the fault of the loop, by its sample, its exit code and the survivors |
| Supervisor.TakenInTime | scripts/guard-local-operation.py:185-188 | the samples taken are those of the rounds up to and with that one |
| Supervisor.ExitMeans | scripts/guard-local-operation.py:185-192 | an exit code is recorded exactly when all rounds ahead went on and the sample of its round was good |
| Supervisor.Receipt.Fail | scripts/guard-local-operation.py:72-76 | only the first failure is kept |
| Supervisor.Receipt.Check | scripts/guard-local-operation.py:133-149 | raises exactly on a containment error or a broken limit; records the limit only when containment is quiet |
| Supervisor.Receipt.Start | scripts/guard-local-operation.py:155-184 | raises exactly at the first fault of setup, admission or launch, and launches exactly after an admitted sample |
| Supervisor.Receipt.Watch | scripts/guard-local-operation.py:185-194 | raises exactly at the first fault of the run; peak and minimum are the extremes of the admission and running samples |
| Supervisor.Receipt.Drain | scripts/guard-local-operation.py:204-227 | records a failed enumeration, and otherwise raises exactly the first fault of stopping and draining the cohort |
| Supervisor.Receipt.TakeFinal | scripts/guard-local-operation.py:228-231 | raises or records exactly the fault of the final sample |
| Supervisor.Receipt.DrainAndFinal | scripts/guard-local-operation.py:204-231 | raises or records exactly the first fault of the cleanup; otherwise the cohort is empty and the final sample was checked |
| Supervisor.Receipt.CleanUp | scripts/guard-local-operation.py:204-241 | records every error of the cleanup once, in order, and removes the group exactly when its removal does not fail |
| Supervisor.Receipt.Supervise | scripts/guard-local-operation.py:154-249 | firstFailure is the earliest fault of the whole operation, "passed" means there is none; the recorded extremes, last sample and exit code are those seen, the cleanup errors are kept in the order of time, and without a known identity nothing is cleaned up or removed |
| Supervisor.PollsDecide | scripts/guard-local-operation.py:185-194 | the loop is without fault exactly when some round sees exit code 0, all rounds up to it are well and nothing survives |
| Supervisor.PassedExactlyWhenAllWell | scripts/guard-local-operation.py:154-249 | the earliest fault is none exactly when every step from setup to removal went well |
| Supervisor.BreachRecordedUnlessMasked | scripts/guard-local-operation.py:146-149 | a broken limit always fails the run, and is recorded with its sample exactly when the containment test is quiet |
| Supervisor.MaskedBreach | scripts/guard-local-operation.py:146-149 | a concrete sample whose breach is masked |
| SkillBlocks.BlockEndMeans | src/commands/codex.ts:15-21 | the scan for a block's end finds the first end marker with no start marker before it, exactly |
| SkillBlocks.NextBlockMeans | src/commands/codex.ts:15-21 | the scan for the next block finds the leftmost match of the pattern, exactly |
| SkillBlocks.WeaveGives | src/commands/codex.ts:65-71 | gaps and blocks, taken alternately, are the text |
| SkillBlocks.ReplaceBlocks | src/commands/codex.ts:65-71 | the first complete block becomes the new one, later ones vanish, everything else stays |
| SkillBlocks.WriteSkillToAgents | src/commands/codex.ts:50-81 | writes the block alone, in place of the old one, or appended behind a separator |
| SkillBlocks.RemoveBlocks | src/commands/codex.ts:138-147 | rewrites exactly the files with a complete block, to the text outside blocks |
| SkillBlocks.TrimMeans | src/commands/codex.ts:54-54 | trimming takes off white space only, and leaves none at either end |
| SkillBlocks.SeparatorMeans | src/commands/codex.ts:72-76 | the separator is as few newlines as end the text in a blank line |
| SkillBlocks.InstallReplaces | src/commands/codex.ts:61-80 | after replacing, the blocks are the new one and whatever the joined tail completes |
| SkillBlocks.InstallAppends | src/commands/codex.ts:72-80 | after appending, the new block is the only one, even behind dangling markers |
| SkillBlocks.InstallIdempotent | src/commands/codex.ts:50-81 | a second install changes nothing exactly when the joined tail spells no complete block |
| SkillBlocks.OneBlockIdempotent | src/commands/codex.ts:50-81 | with at most one complete block install is idempotent and keeps all text outside it |
| SkillBlocks.InstallPreserves | src/commands/codex.ts:61-80 | text outside complete blocks survives an install exactly when the joined tail completes no block; a file without a block gains only the separator |
| SkillBlocks.UninstallUndoesFirstInstall | src/commands/codex.ts:138-147 | uninstalling after a first install gives back the file plus at most two newlines |
| SkillBlocks.WrittenBlockGood | src/commands/codex.ts:54-54 | the written block is one the lemmas above apply to exactly when the trimmed skill text is marker-free |
| SkillBlocks.JoinedHalvesBreakIdempotence | src/commands/codex.ts:65-71 | files with two blocks and split markers around the second, for which a second install changes the file |
| PathGlobs.GlobToRegExp | src/commands/doctor.ts:179-195 | the index loop builds the compiled pattern |
| PathGlobs.CompiledParses | src/commands/doctor.ts:179-195 | the compiled text reads back as exactly the pattern's items: nothing is under-escaped and no star binds to a literal |
| PathGlobs.ManyMatches | src/commands/doctor.ts:184-188 | a repeated atom takes some accepted stretch and leaves the rest |
| PathGlobs.GlobCompiles | src/commands/doctor.ts:179-195 | the compiled expression accepts a text exactly when the glob does with `**` kept to one line; on texts without line ends that is the glob |
| PathGlobs.LineEndsDiffer | src/commands/doctor.ts:184-186 | a text that the glob `**` accepts and its compiled expression does not |
| PathGlobs.GlobsEverywhere | src/commands/doctor.ts:179-195 | the compiled expression and the glob agree on every text exactly when the pattern has no `**` |
| PathGlobs.CoversByComponents | src/commands/doctor.ts:203-206 | on normalised absolute paths an entry, with any slashes at its end, covers a target exactly when its components open the target's |
| PathGlobs.SuffixStripped | src/commands/doctor.ts:198-200 | each of the three glob suffixes is stripped, and only that |
| PathGlobs.DirectoryEntry | src/commands/doctor.ts:208-221 | an entry for a directory, with or without a glob suffix, allows exactly the directory and what is below it |
| ContextBudget.SortByOrders | src/lib/utils/budget-pack.ts:62-71 | sorting by a strict total order keeps the indices and puts them in order |
| ContextBudget.BeforeOrders | src/lib/utils/budget-pack.ts:64-70 | the comparator is a strict total order |
| ContextBudget.BeforeMeans | src/lib/utils/budget-pack.ts:64-70 | a score better by the tie width comes first; among equal scores the smaller cost does, and then the place |
| ContextBudget.Fill | src/lib/utils/budget-pack.ts:73-79 | a candidate is taken exactly when it fits on top of those taken ahead of it |
| ContextBudget.BestOf | src/lib/utils/budget-pack.ts:83-86 | the first candidate of the highest score |
| ContextBudget.PackByBudget | src/lib/utils/budget-pack.ts:47-96 | the selection obeys the greedy law, comes in ascending order and stays within the budget; only a forced single best candidate may exceed it |
| ContextBudget.GreedyUnique | src/lib/utils/budget-pack.ts:73-79 | the greedy law leaves one selection only |
| ContextBudget.GreedyFull | src/lib/utils/budget-pack.ts:73-79 | nothing left out would still fit |
| ContextBudget.DecimalMonotone | src/commands/mcp.ts:3298-3299 | a smaller number has no more digits |
| ContextBudget.DecimalReads | src/commands/mcp.ts:3338-3338 | a printed number reads back as that number, without leading zeros |
| ContextBudget.Entries | src/commands/mcp.ts:3300-3304 | each entry line is kept exactly when the section so far still fits with it |
| ContextBudget.PlacesOrder | src/commands/mcp.ts:3327-3334 | with scores one apart, packing considers the bodies in their own order |
| ContextBudget.JoinCosts | src/commands/mcp.ts:3338-3339 | a join costs at most its first section plus each further one with its separator |
| ContextBudget.ChosenCost | src/commands/mcp.ts:3327-3336 | chosen bodies with their separators cost exactly what packing charged |
| ContextBudget.FooterFits | src/commands/mcp.ts:3298-3299 | the footer actually printed costs no more than the one reserved |
| ContextBudget.BuildContext | src/commands/mcp.ts:3260-3339 | the report never costs more than its budget, its separators and footer included, and is exactly the kept ones of the first five entry lines, the packed ones of the first three bodies, and a footer that spells their joint cost and the budget |
| ArtifactTree.Walk | mlx-embed-server/gemma_backend.py:26-44 | ends, and passes exactly the trees with at most 64 entries, no link or special file, only ancestors of contract files as directories, and exactly the contract's files |
| ArtifactTree.AllowedDirectories | mlx-embed-server/gemma_backend.py:29-30 | exactly the proper ancestors of contract files, the root left out |
| ArtifactTree.ConformingShape | mlx-embed-server/gemma_backend.py:26-44 | a passing tree has exactly the contract's files and exactly their ancestors as directories |
| ArtifactTree.CountListing | mlx-embed-server/gemma_backend.py:31-34 | where names are distinct, the entry count is the number of items below the root |
| ArtifactTree.FileAtListed | mlx-embed-server/gemma_backend.py:45-46 | looking a path up finds exactly the file the walk lists there |
| ArtifactTree.ValidateArtifact | mlx-embed-server/gemma_backend.py:17-50 | accepts exactly a real directory below no link whose tree conforms and whose files have the pinned digests and sizes in bound |
| ArtifactTree.ContractPinsArtifact | mlx-embed-server/gemma_backend.py:17-50 | beside a tree it accepts, a contract accepts exactly the trees with the same directories and the same files, byte for byte |
| DependencyNotices.Followed | scripts/bounded-native-notices.py:25-26 | exactly the dependencies with some kind other than development |
| DependencyNotices.Shipped | scripts/bounded-native-notices.py:26-26 | a dependency is followed exactly when it is used normally or for the build |
| DependencyNotices.NodesMeans | scripts/bounded-native-notices.py:16-16 | of several nodes with one identifier the last one counts |
| DependencyNotices.Notices | scripts/bounded-native-notices.py:17-26 | ends on every graph, reaches exactly the packages reachable through followed edges, and fails exactly when one of them has no node |
| DependencyNotices.ReachableIsLeast | scripts/bounded-native-notices.py:19-26 | what is reachable is inside every closed set with the root in it |
| DependencyNotices.EdgesDecide | scripts/bounded-native-notices.py:25-26 | order, repetition and development uses do not change what is reached |
| DependencyNotices.MoreEdgesReachMore | scripts/bounded-native-notices.py:25-26 | adding edges never takes a package away |
| DependencyNotices.DevOnlyUnreached | scripts/bounded-native-notices.py:25-26 | a package used in development only is not reached |
| HookSettings.MergeHooks | src/commands/droid.ts:129-145 | the nested loops compute the merge; they throw exactly where it does |
| HookSettings.ScanThrows | src/commands/droid.ts:138-138 | the search throws exactly when an entry without a first hook stands ahead of every match |
| HookSettings.MergeEntriesLaw | src/commands/droid.ts:134-142 | merging an event throws exactly when some incoming command is blocked; otherwise the user's entries stay in front and every incoming command is present |
| HookSettings.InstallLaw | src/commands/droid.ts:129-145 | the same for whole settings, with keys and entries of other events untouched |
| HookSettings.InstallIdempotent | src/commands/droid.ts:129-145 | installing twice is installing once |
| HookSettings.InstallMeans | src/commands/droid.ts:129-145 | installing adds, at the end of their events, the two entries not yet there, and nothing else |
| HookSettings.InstallFresh | src/commands/droid.ts:209-225 | for settings without hooks the result is the two events, letter by letter |
| HookSettings.Settings.Install | src/commands/droid.ts:209-230 | succeeds exactly when neither command is blocked; then the session start runs the start script and the session end the stop script, each with its matcher and a timeout of 10, behind the user's entries and at most once, and other events are as they were; on an exception the hooks are as they were |
| HookSettings.Settings.RemoveGmaxHooks | src/commands/droid.ts:108-119 | the in-place edit leaves of every event exactly the entries that do not point into our directory, drops emptied events and then empty hooks, and reports whether anything of ours was there |
| HookSettings.KeptShorter | src/commands/droid.ts:112-113 | the length comparison detects exactly the presence of one of our entries |
| HookSettings.IncludesMeans | src/commands/droid.ts:102-104 | a command is ours when our directory stands anywhere in it |
| HookSettings.RemovedMeans | src/commands/droid.ts:111-116 | of every event exactly the entries are left, in order, none of whose commands has the directory in it |
| HookSettings.HoldsMeans | src/commands/droid.ts:113-113 | something of ours is there exactly when some entry has such a command |
| HookSettings.UninstallKeeps | src/commands/droid.ts:252-255 | where no command has the directory in it, the file stays as it is |
| HookSettings.HookConfigOurs | src/commands/droid.ts:209-225 | the entries installed are recognised as ours |
| HookSettings.MergeThenRemove | src/commands/droid.ts:108-145 | installing adds nothing that uninstalling leaves behind |
| HookSettings.StrippedSame | src/commands/droid.ts:108-119 | removing changes nothing exactly for clean settings |
| HookSettings.UninstallUndoesInstall | src/commands/droid.ts:108-145 | after an install, uninstalling leaves exactly the user's entries; that is what was there before if and only if there was no hooks key, or a non-empty one without entries of ours and without empty event lists |
| HookSettings.EmptyHooksLost | src/commands/droid.ts:117-117 | an empty hooks object holds nothing of ours and yet does not come back |

## Left out

- Recovery.CompareVersions: takes `count_rows` to be the number of rows a scan yields, which is native behaviour.
- Fingerprint.Digest: null-buffer quirks of the native library (a missing data buffer in an all-null column) are not part of this model.
- Json.ValueRoundTrip: `NaN`, `Infinity`, raw non-ASCII text and the interpreter's limit on integer digits are outside the modelled grammar; names are sequences of UTF-16 code units.
- TensorHeader.ReadHeader: headers in UTF-16 or UTF-32, with a byte order mark or with raw non-ASCII text, which `json.loads` decodes, are refused here; its limit on nesting depth is not modelled.
- TensorArtifact.SortEntriesOrders: orders names by UTF-16 code unit, not by code point; the two differ only beyond the basic plane.
- TensorArtifact.BuildTextArtifact: the pinned checksum of the source, copying of config and tokenizer files, path containment, the index file and the publishing rename are not modelled.
- IndexCatchUp.Run: fragment metadata and content are one immutable value, the stored index configuration is opaque, the sum of new file sizes is an input, and the name of the failed verification category is dropped.
- IndexCatchUp.CompletedRunAdvances: assumes that old segments have distinct identifiers, a property of the native table.
- CatchUpDrain.DrainsExactly: speaks of tables whose native counts are right (the engine's backlog is the live rows of the pending fragments, and a scan finds as many rows as counted).
- Retention.Prune: assumes that version numbers are distinct, a property of the native table; byte counts and the engine's own removal statistics are not modelled.
- Retention.PassesMeetUnbounded: assumes that the listing entry of a version does not change between passes.
- Supervisor.Receipt.Supervise: signals are failures of the step they interrupt, deadlines are inputs, and the drain loop is one step; exit status and receipt writing are left out.
- ArtifactTree.ValidateArtifact: the checks of config.json and of the tensor inventory after the digests are left out; `TensorHeader.ReadHeader` models the reader they use.
- ContextBudget.BuildContext: how an entry line and a body are rendered from a search result is an input; budgets are integers.
- HookSettings.MergeHooks: settings of another shape than lists of entry objects are not modelled.
- `contained` and other path checks, file-system races, real clocks and process spawning.
- Expansion of `~`, `$HOME` and relative entries, and the layering of settings scopes (`effectiveSandbox`): each scope's defined leaf overwrites the one before.
- `filterMcpSearchResults`, `measure`, and the licence text that `notices` collects: filters and sums whose properties can be read off one body.
- The native engines themselves, the MCP registration calls, command lines and console output.
