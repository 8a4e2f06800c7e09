# Verified core of go-libfossil

A Dafny model of the engines inside go-libfossil, a Go implementation of Fossil,
with proofs about them. SQL tables are maps, working files a map from names to
contents, transactions a stack of snapshots. Code that updates state in loops is
modelled by methods and classes proved against specifications; protocols that can
be interrupted or interleaved are modelled by their atomic steps.

| modules | what they model |
|---|---|
| `LineHashing`, `LineTable`, `LineIndent`, `CommonRun`, `ChainSearch`, `EditScript`, `DiffOutcome`, `LineDiff`, `DiffOverrun` | the line diff: hash chains in the line array, the common-run searches, the work list, the folding edit script |
| `Annotate` | crediting each line of a file to a version along its ancestry |
| `Receipts` | transactions, nested savepoints and the receipts whose ids live and die with their rows |
| `ContentCache`, `ContentMixing` | the shared content cache and the write count that empties it, under concurrent reads and writes |
| `PathOrder`, `Cone`, `ConeBuild`, `ConeQueries`, `ConeUnion` | sparse cones: longest match, canonical form, queries, the union widening a store |
| `SparseRecord`, `SparseCheckout`, `Marker` | changing a checkout's cone: its record, its files, and the move of its database between two names |
| `FileTable`, `RevertPlan`, `Revert` | revert: planning, and three passes under a uniqueness constraint |
| `MergeRenames`, `MergeFiles` | the renames of a merge, on rows and on disk |
| `CommitFiles` | the file set of a commit, full or of selected files |
| `BlobStore`, `BlobRepository` | the artifact store: phantoms, delta links, naming, expansion |
| `HistoryPath`, `Bisect` | breadth-first paths through history, and bisection |
| `AttachStub` | the attachment stub, written and read |

Verify with `dafny verify dfyconfig.toml`.

## Findings

Where a property does not hold of the code as it is, the model keeps the code and
states exactly when it does hold.

- The exhaustive common-run search compares the line `longest` further on after
  `longest` may have grown within the row, so it can look at the line after the
  range, and past the array when the range ends the old file. The model leaves the
  column unread there, which changes no result. It is reached only where no hash
  chain within the last cutoff anchors a run: `LongestCommonSequence` and `DiffAll`
  say exactly for which ranges it happens, `OverrunNeedsCrowd` that a bucket of the
  new file then holds more lines than the cutoff follows, and `DiffOfSmallFiles`
  runs into it from two files.
- A version that cannot be diffed still counts as the one just newer, so a line may
  be credited to it that nobody has looked for in it: `AllRightExactly` gives the
  condition on the versions met, `HiddenLineMiscredited` a walk.
- The path union treats a horizon-only cone as having no members, so it covers less
  than that cone: `HorizonOnlyFallsShort`. `RequiredPathUnion` shows this is the only
  way it can be wrong, and `RequiredStoreUnion` that the store never passes one.
- Narrowing a cone away from a name that a pending rename has left, while the new
  name stays, brings the old file back into the effective record:
  `ChangeKeepsRecord`, `RenamedAwayComesBack`.
- A recovery that decided which name to drop during one marker move and acts after
  the next has begun can remove the only name left. `NameRemains` and
  `UnclearStartCanLose` give the exact condition on the start of a move.
- A read by name resolves the name and takes the content in two steps, so it may meet
  a write that has landed, and pair a name with content of a reused row from another
  moment, cached or not. `HitExactly` and `FetchExactly` give the exact condition for
  each path, `AloneMixedExactly` for a read begun in any reachable state and left
  alone, `LandedWriteMixes` the converse; `ReadByNameCanMix` is a run.
- A row renamed twice records only the name it last left. A revert deletes such a row
  and its file and does not bring the committed name back, and a commit holds the
  file twice: `RevertTwiceRenamed`, `TwiceRenamedTwice`. `BackHomeExactly` and
  `OnceExactly` give the conditions.
- A commit of selected files takes the content of a row left out from that row, so a
  row left out that was renamed onto a parent file's name gives that file another
  content: `LeftAloneExactly`, `LeftOutTakesContent`.
- Two renamed rows going back to one name make a revert fail, and a tracked file
  with the aside name of a removed one makes a merge's renames fail; both conditions
  are exact: `RevertAll`, `OneOriginTwice`, `RenameRows`, `AsideCanBeTaken`.
- The comment on `IntersectsSubtree` calls it conservative; for a minimal cone it is
  exact.

## Model

| member | source | states |
|---|---|---|
| `EditScript.PatchRebuilds` | internal/annotate/fdiff.go:122-143 | An aligned script, applied to the old lines with the lines it inserts, rebuilds the new file up to what it yields |
| `EditScript.CopiedFrom` | internal/annotate/fdiff.go:122-143 | Every line of the new file that a script does not insert is one it copies, from an equal line of the old one |
| `EditScript.CopiedOnce` | internal/annotate/fdiff.go:122-143 | The lines a script copies are paired one to one and in order, and none of them is inserted |
| `EditScript.FoldMeansAppend` | internal/annotate/fdiff.go:190-213 | Folding a triple into the last one changes neither what the script consumes and yields nor which lines it copies from where and which it inserts, compared with appending it |
| `EditScript.FoldAligned` | internal/annotate/fdiff.go:190-213 | Folding keeps every copied line equal on both sides |
| `EditScript.AppendedMeans` | internal/annotate/fdiff.go:190-213 | Whichever of the four ways a triple is added, the script means the old one followed by the triple and stays aligned |
| `CommonRun.LackingLongerIsLongest` | internal/annotate/fdiff.go:312-332 | Once no row can hold a longer run and the rest of the range is too short, the run found is as long as any pair of starting positions has |
| `LineHashing.HashKeepsLength` | internal/annotate/fdiff.go:93-109 | The low bits of a line's hash are its length, for every length the format allows, and the hash fits 64 bits |
| `LineTable.LinesRebuildFile` | internal/annotate/fdiff.go:49-91 | The lines cut from a file, each with its newline, are the file with its last newline supplied |
| `LineTable.LineCount` | internal/annotate/fdiff.go:57-68 | The lines number the newlines, and one more when the file does not end in one |
| `LineTable.ThreadingKeepsChains` | internal/annotate/fdiff.go:85-87 | Putting line i at the head of its bucket's chain keeps every chain descending, within its bucket and missing no earlier line of it |
| `LineTable.CountLines` | internal/annotate/fdiff.go:54-68 | The count is the number of lines, or a refusal exactly when the file has a NUL |
| `LineTable.FillLines` | internal/annotate/fdiff.go:69-91 | Every line is entered with its hash and chained, or refused exactly when a line is longer than the length mask |
| `LineTable.BreakIntoLines` | internal/annotate/fdiff.go:54-91 | A file is broken into its lines, hashed and chained, exactly when it can be diffed: no NUL and no overlong line |
| `LineIndent.MeasureRange` | internal/annotate/fdiff.go:341-359 | Measuring a range fills in exactly its lines and tells whether one has more than a character between its spaces |
| `LineIndent.FindOwnLine` | internal/annotate/fdiff.go:360-383 | A line of the run is found that no line outside it repeats, exactly when there is one |
| `LineIndent.LikelyNotIndentArtifact` | internal/annotate/fdiff.go:334-366 | A match is taken as real exactly when it is a seventh of the range, or has a line of more than one character that no line outside it repeats, whatever had been measured before |
| `LineDiff.DiffContext.AppendTriple` | internal/annotate/fdiff.go:190-213 | After adding a triple in place the script means what it meant followed by the triple, and stays aligned where the triple is |
| `ChainSearch.FoundWithin` | internal/annotate/fdiff.go:273-286 | A walk down a chain that ends has found a line exactly when the range has an equal one, short of its last, within the cutoff's depth in the chain |
| `LineDiff.DiffContext.ChainMatch` | internal/annotate/fdiff.go:273-286 | Following the hash chain gives the last equal line of the range but its very last one, exactly when the range has such a line no deeper in its chain than the cutoff follows; without a cut-off exactly when it has one at all |
| `LineDiff.DiffContext.ExtendMatch` | internal/annotate/fdiff.go:288-308 | The run grown from a match is the whole common run through it: it cannot be extended within the ranges on either side |
| `LineDiff.DiffContext.ScanRow` | internal/annotate/fdiff.go:316-330 | After one row no run starting in it is longer than the best, and it is known whether the look-ahead left the range |
| `LineDiff.DiffContext.OptimalLCS` | internal/annotate/fdiff.go:312-332 | The run found is a common run of maximum length over all pairs of starting positions, despite the shrinking bounds and the skip; the look-ahead leaves the old file's array exactly when the stated condition on the two files holds |
| `LineDiff.DiffContext.AnchoredRun` | internal/annotate/fdiff.go:222-262 | The heuristic search returns a common run that cannot be extended inside the ranges, an empty one exactly when no line of the range has an equal one within the last cutoff's depth |
| `LineDiff.DiffContext.LongestCommonSequence` | internal/annotate/fdiff.go:222-268 | The search returns a common run that cannot be extended inside the ranges: not empty where a line has an anchor, a longest one where none has and the ranges are small, and empty on others; it looks past the old file exactly when the stated condition on the ranges holds |
| `ChainSearch.OverrunNeedsCrowd` | internal/annotate/fdiff.go:222-268 | No diff looks past the old file unless some bucket of the new one holds more lines than the last cutoff follows |
| `LineDiff.DiffContext.PickRun` | internal/annotate/fdiff.go:155-186 | The run found is split at exactly when it is long, or not empty and no artifact of indentation |
| `LineDiff.SplitTiles` | internal/annotate/fdiff.go:147-186 | The three pieces a range is split into tile what the range did, in order, and weigh less, so the work list ends |
| `LineDiff.DiffContext.DiffStep` | internal/annotate/fdiff.go:155-186 | Working through the list does what the recursion it replaces does: around a run found that is worth it, which is copied line by line, each side is diffed in the same way, and where none is every new line is inserted; the triples consume and yield exactly the two ranges, aligned throughout |
| `DiffOutcome.RunKept` | internal/annotate/fdiff.go:155-186 | Where whatever a search of the ranges can end with is long or no artifact of indentation, some whole common run is copied and none of its lines inserted |
| `DiffOutcome.OnlyRunKept` | internal/annotate/fdiff.go:155-186 | If there is one common run only, it is that one, with every line of it |
| `DiffOutcome.NothingKept` | internal/annotate/fdiff.go:155-186 | Ranges without a common line are inserted whole |
| `LineDiff.CommonEnds` | internal/annotate/fdiff.go:126-134 | The common prefix and suffix are equal runs that do not overlap, the suffix as long as can be and the prefix as long as it leaves room for |
| `LineDiff.ScriptPatches` | internal/annotate/fdiff.go:122-143 | A finished script rebuilds the new file from the old one and the inserted lines |
| `LineDiff.DiffAll` | internal/annotate/fdiff.go:122-143 | For all pairs of line tables the triples consume exactly the old lines, yield exactly the new ones, copy what is common at start and end and only equal lines, diff the middle and every range tried as DiffStep says, keep a run of each range that must be split, and replay to the new file; the search looks past the old file exactly when one of the ranges tried meets the condition, and never without a crowded bucket |
| `LineDiff.SharedLineKept` | internal/annotate/fdiff.go:155-186 | A line shared in the middle of two three-line files with nothing else in common is copied |
| `DiffOverrun.RepeatedOverruns` | internal/annotate/fdiff.go:312-332 | For any two lines in one bucket, x against y, x, x and y 125 times meets the condition on the range the diff searches first |
| `DiffOverrun.DiffOfSmallFiles` | internal/annotate/fdiff.go:45-143 | Two small files, cut, hashed with the hash in use and diffed, for which the search looks past the last line of the old one |
| `Annotate.CreditInsertions` | internal/annotate/annotate.go:258-279 | On any script that fits, each uncredited line inserted by it is credited to the version and no other changes; the count returned is how many lines that were |
| `Annotate.WalkAncestors` | internal/annotate/annotate.go:165-228 | The versions listed are those met, each line's credit is the first version whose next older diffable version's script inserts it, no bound is passed, and the walk stops exactly at a bound, with no line left, at the end or at what it could not read; the horizon and the failure reported are those met there |
| `Annotate.CreditNamesVersion` | internal/annotate/annotate.go:165-228 | A credit is -1 or the index of a listed version followed by an older, diffable one whose script inserts the line |
| `Annotate.CreditedLinePresent` | internal/annotate/annotate.go:165-228 | A line was present in every diffable version older than the starting one and not older than the version it is credited to |
| `Annotate.SharedNotCredited` | internal/annotate/annotate.go:216-225 | A line that a version's next older diffable one shares at its start or end, or in the only common run between that must be kept, is not credited to the version |
| `Annotate.CreditSkipsUndiffable` | internal/annotate/annotate.go:216-225 | The credited version is one after which the next older diffable version lacks the line, and the newest such exactly when it is the starting version or can be diffed itself |
| `Annotate.AllRightExactly` | internal/annotate/annotate.go:165-228 | Every line of a walk is credited to the newest version after which the next diffable one lacks it, exactly when no line still uncredited after an undiffable version is inserted by the next diffable one |
| `Annotate.DiffableAllRight` | internal/annotate/annotate.go:165-228 | When every version met can be diffed, every line is credited right |
| `Annotate.HiddenLineMiscredited` | internal/annotate/annotate.go:216-225 | A walk over a one-line file, a version with a NUL and an empty one credits the line to the version with the NUL |
| `Annotate.ReportLines` | internal/annotate/annotate.go:114-132 | Every line is reported with its text and the version credited, the oldest listed one or the horizon standing in where there is no credit |
| `Annotate.AnnotateFile` | internal/annotate/annotate.go:66-133 | An annotation has one entry for each line of the file, by the credits of a walk that stops where WalkAncestors says, with the horizon met; there is none exactly for a file that cannot be diffed or a walk that fails |
| `Receipts.KeptKept` | db/receipt.go:99-111 | Forgetting from one depth and then a lower one is forgetting from the lower |
| `Receipts.ReleaseKeeps` | db/receipt.go:113-119 | After a savepoint is released its receipts are forgotten with the enclosing depth and no other changes |
| `Receipts.Tx.ForgetFrom` | db/receipt.go:99-111 | Exactly the receipts made at the depth or deeper lose their ids, and the list keeps the others in order |
| `Receipts.Tx.KeepTo` | db/receipt.go:113-119 | Exactly the receipts made at the depth move to the enclosing one |
| `Receipts.Tx.UndoTo` | db/db.go:639-671 | After a rollback the table is as it was marked, and a receipt has forgotten its id exactly when its row is gone |
| `Receipts.Tx.ID` | db/receipt.go:51-85 | A receipt's id, once made, names a row of the current table that this receipt made and no other did; a refused insert changes nothing |
| `Receipts.Tx.ReceiptID` | db/receipt.go:157-169 | A transaction's receipt is created once, and its id names its own row |
| `Receipts.Tx.WithSavepoint` | db/db.go:639-671 | Whether opening it, what ran inside or its release fails, a failed savepoint leaves the table, the list and every older receipt's id as they were, and receipts born inside without one; one that passes makes what its script makes |
| `Receipts.PassesInPlace` | db/db.go:639-671 | A savepoint that passes makes, and leaves in use, what its script would in its place |
| `Receipts.Tx.Run` | db/db.go:489-528 | Over every nesting of work and savepoints, succeeding or failing at any level, exactly the receipts for which something not undone made or stored a row hold an id besides those that did, ids name existing rows of their own receipts, every new row is one of theirs, and no row older than the work is lost |
| `Receipts.Database.WithTx` | db/db.go:489-528 | A transaction that commits has made rows for exactly the receipts its script makes, and one of its own exactly if it stores under none given; one that does not leaves the table and every receipt's id as before; each counts as a write whatever its end |
| `Receipts.Database.ID` | db/receipt.go:51-85 | Outside a transaction a receipt makes its row directly, at most once, and counts a write only then |
| `ContentCache.RunInv` | repo_content_cache.go:39-72 | Over every interleaving of readers, writers and cache changes, what a cache holds was read no earlier than the write count it was made for |
| `ContentCache.ReadReflectsReturnedWrites` | repo_content_cache.go:58-104 | A read begun after a write had returned resolves its name and takes its content from moments of the store no older than that write |
| `ContentCache.QuietReadIsExact` | repo_content_cache.go:79-104 | When no write has landed since the read began, a read through the cache returns exactly what an uncached one would |
| `ContentMixing.MixedExactly` | repo_content_cache.go:79-104 | In every reachable state a finished read has other content than its name had when resolved exactly when its row has other content at the moment the content is from, a moment no older than the writes returned before the read |
| `ContentMixing.HitExactly` | repo_content_cache.go:98-104 | A hit gives other content than the resolved name had exactly when the entry is from a moment at which the row had other content, one past the floor of the cache's write count |
| `ContentMixing.FetchExactly` | repo_content_cache.go:98-104 | A fetch gives other content than the resolved name had exactly when a write landed since has given the row other content |
| `ContentMixing.AloneMixedExactly` | repo_content_cache.go:79-104 | From every reachable state, a read begun and left alone finishes, and is mixed exactly when the live cache holds other content for the row its name resolves to than the store |
| `ContentMixing.StaleNeedsUnreturned` | repo_content_cache.go:39-72 | A live cache holds other content for a row than the store only when a write has landed that had not returned |
| `ContentMixing.LandedWriteMixes` | repo_content_cache.go:98-104 | From every reachable state in which a read has resolved its name and will fetch, a write landing now with other content for the row makes it a mixed one |
| `ContentMixing.KeptRowsReadExact` | repo_content_cache.go:79-104 | Where the writes landed since the read began give no row other content, every read is exact, cached or not |
| `ContentMixing.ReadByNameCanMix` | repo_content_cache.go:98-104 | For any two contents there is a run in which a read by name is given one that no moment of the store gives that name |
| `ContentCache.HeldCacheStays` | repo_content_cache.go:58-72 | A read keeps the cache it was given to its end, whatever is attached meanwhile |
| `ContentCache.InFlightStoresStay` | repo_content_cache.go:39-72 | What a read stores goes into the cache it was given and changes no other, a successor included |
| `Cone.AddInclusion` | internal/cone/cone.go:121-150 | An inclusion no member lies under covers exactly its own subtree in addition |
| `Cone.AddExclusion` | internal/cone/cone.go:121-150 | An exclusion no member lies under uncovers exactly its own subtree |
| `Cone.MembersAreTurns` | internal/cone/cone.go:11-15 | In a minimal cone the members are exactly the paths where coverage changes from the directory above |
| `Cone.Canonical` | internal/cone/cone.go:11-17 | Two cones with the same coverage list the same members, so they serialize alike |
| `ConeBuild.LongestCovering` | internal/cone/cone.go:162-177 | The member returned is the longest covering the path, with its polarity, or none when none covers it |
| `ConeBuild.Decide` | internal/cone/cone.go:207-221 | The verdict is the polarity of the longest covering member, named with it; a cone without inclusions covers everything |
| `ConeBuild.Normalize` | internal/cone/cone.go:133-156 | The members kept have the coverage of all those given and are minimal; it is refused exactly when a path has both polarities or an exclusion lies under no inclusion |
| `ConeBuild.Build` | internal/cone/cone.go:89-112 | A cone is built exactly from lists in bounds, valid, uncontradictory and without dead exclusions, and covers what their longest matches cover whatever their order and repeats |
| `ConeQueries.IntersectsSubtree` | internal/cone/cone.go:223-244 | The answer is yes exactly when some path in the subtree is covered |
| `ConeQueries.MayCover` | internal/cone/cone.go:246-266 | A range answered no holds no covered path |
| `ConeUnion.AgreeEverywhere` | required_content_policy.go:85-87 | Members drawn from both cones that decide those members as the cones do decide every path as they do |
| `ConeUnion.ParentDecision` | required_content_policy.go:103-111 | The parent found, in whatever order the map yields them, gives the decision for the directory |
| `ConeUnion.RequiredPathUnion` | required_content_policy.go:87-123 | The union of two cones with inclusions covers a path exactly when one of them does, is minimal, and is refused exactly when no cone within the member bound has that coverage; with one horizon-only argument it succeeds and covers exactly what lies under a member, with two it is refused |
| `ConeUnion.HorizonOnlyFallsShort` | required_content_policy.go:87-123 | What that gives for a horizon-only cone and the member a: the first covers b and the result does not |
| `ConeUnion.WithHorizon` | checkout_sparse.go:121-134 | Replacing the horizon keeps the members, and is refused exactly when nothing would be left |
| `ConeUnion.RequiredStoreUnion` | required_content_policy.go:54-83 | The widened store covers exactly what either covers, keeps its horizon as it is, a dense one stays dense, and a horizon on the checkout's side is refused |
| `SparseRecord.ChangeKeepsSplit` | internal/checkout/sparse.go:376-413 | After a cone change the file table has covered names only and the pending table uncovered ones only |
| `SparseRecord.ChangeKeepsRecord` | internal/checkout/sparse.go:376-484 | The effective record is unchanged, ids and mtimes aside, exactly when every name of the version that leaves the cone has a row of its own and no entering row is merged into a different one; rows without changes still equal the version's |
| `SparseCheckout.Checkout.EffectiveRows` | internal/checkout/sparse_pending.go:138-186 | A sparse checkout's rows are the pending outcomes, over the file table's, over the version's own entries for its uncovered files; a dense one's are its table's |
| `SparseCheckout.Checkout.PlanConeChange` | internal/checkout/sparse.go:418-505 | A plan lists each of the rows crossing the boundary each way once and no other; it is refused exactly when a leaving file is missing or its row shows an add, a removal, a rename, an edit or a merge, or an undeleted entering one has no content or other content in its place, and the reason given is one |
| `SparseCheckout.Checkout.ApplyConeChange` | internal/checkout/sparse.go:376-413 | Entering rows are inserted, written, merged where an outcome was left unresolved, and no longer pending; leaving ones are deleted and removed, and nothing else changes |
| `SparseCheckout.Checkout.BringOne` | internal/checkout/sparse_pending.go:328-350 | An entering row whose pending outcome is unresolved shows the merge and its file holds the merged content, unless it is removed, a link or kept as it is; any other is as recorded |
| `SparseCheckout.Checkout.SetCone` | internal/checkout/sparse.go:271-337 | It is declined exactly when a file may not cross, changing nothing; otherwise every file that was on disk stays as it was, or left the cone unchanged, or held just what entered; it keeps both tables apart, moves exactly the files that cross, and keeps the effective record exactly under the stated condition, with any outcomes pending |
| `SparseCheckout.RenamedAwayComesBack` | internal/checkout/sparse.go:418-474 | A rename out of a name followed by narrowing away from that name brings the old file back into the record |
| `Marker.StepGuarded` | internal/checkout/marker.go:33-86 | Every step of a transition, a crash or a recovery keeps a stored cone away from the native name |
| `Marker.ConeNeverNative` | internal/checkout/sparse.go:271-337 | Over every run of transitions, crashes and recoveries a database holding a cone is never under the native name |
| `Marker.NameRemains` | internal/checkout/marker.go:33-86 | Over every run in which each move starts clear of earlier recoveries, a move and its recoveries never remove both names |
| `Marker.UnclearStartCanLose` | internal/checkout/marker.go:142-175 | A move that starts while a recovery that could harm it is under way can go on to lose both names |
| `Marker.RecoveryKeepsTarget` | internal/checkout/marker.go:142-175 | After a crash, recoveries in any number and order keep the recorded target, and the first to finish leaves it alone |
| `Marker.CrashedMoveCompletes` | internal/checkout/marker.go:27-33 | A crash between link and unlink is completed to the recorded target by one recovery |
| `Marker.SpanningRecoveryLosesBoth` | internal/checkout/marker.go:137-142 | A run in which a recovery decides during one move and acts after the next, and both names are gone |
| `RevertPlan.PlanRevertSteps` | internal/checkout/revert.go:164-240 | Each row is planned at most once, every row asked for is, every row holding a name a rename goes back to is pulled in and does not stay there, and nothing else is planned; exactly the pending adds are un-managed, the renamed files the version knows go back, the other files it lacks are removed and the rest are restored or displaced |
| `Revert.OnlyEarlierRename` | internal/checkout/revert.go:322-361 | When a renamed row takes its old name, only an earlier rename to the same name can stand there |
| `Revert.Checkout.VacateAll` | internal/checkout/revert.go:396-437 | The first pass deletes the rows that go, parks the renamed ones without ever breaking uniqueness, and removes exactly their files |
| `Revert.Checkout.TakeBackNames` | internal/checkout/revert.go:351-361 | The second pass puts every renamed row under its old name, failing exactly when two go back to one name |
| `Revert.Checkout.RestoreFiles` | internal/checkout/revert.go:362-390 | The third pass writes each returning file's committed content under its name and clears its row, and touches no other file or row |
| `Revert.Checkout.RevertRows` | internal/checkout/revert.go:247-292 | The planned rows are reverted as the three passes say, with names unique throughout, or nothing changes; failure is exactly two renames back to one name |
| `Revert.Checkout.RevertAll` | internal/checkout/revert.go:58-105 | Told by the rows' columns and the version's names: a pending add leaves the table and its file alone, a renamed file goes back to the name it records, a file of the version is restored under its name, each with its content, permission and every mark cleared, and any other file that shows a change is removed with its row, save that a name a renamed file goes back to is left to that; it fails exactly when two go back to one name, changing nothing, and no file changes that no row is called by or goes back to |
| `Revert.BackHomeExactly` | internal/checkout/revert.go:58-105 | After a revert of all, a committed file's row is back under a name of the version exactly when it records that name as its origin, or has the name and no renamed row claims it |
| `Revert.UnknownOriginLost` | internal/checkout/revert.go:201-240 | A row whose recorded origin and name are both unknown to the version is deleted by a revert |
| `Revert.RevertTwiceRenamed` | internal/checkout/revert.go:58-105 | Reverting all of a checkout whose only file was renamed from a to b to c deletes the row and the file, and does not bring a back |
| `Revert.OneOriginTwice` | internal/checkout/revert.go:351-361 | Two rows renamed from one name make a revert of all fail |
| `MergeRenames.RenameRows` | internal/checkout/merge.go:979-997 | The renames act on the rows as one substitution with names unique, rows not at a target untouched, the later of two renames to one name at it and the earlier put aside; they fail exactly when a row in the way cannot be put aside |
| `MergeRenames.DistinctAllLand` | internal/checkout/merge.go:979-997 | With different targets every renamed row ends at its own |
| `MergeRenames.HeldIsOccupied` | internal/checkout/merge.go:985-995 | A target is occupied when its turn comes exactly when a row not renamed, or put aside to it, has the name |
| `MergeRenames.AsideCanBeTaken` | internal/checkout/merge.go:976-995 | A removed file in the way whose aside name a tracked file has makes the renames fail |
| `MergeFiles.MoveRenamedFiles` | internal/checkout/merge.go:1003-1051 | Through any swaps and chains each file ends at its target with its content, the later of two with one target, names only left are free, other files untouched |
| `MergeFiles.DistinctAllMove` | internal/checkout/merge.go:1003-1051 | With different targets every file moved is at its own |
| `MergeFiles.CheckMergeRenames` | internal/checkout/merge.go:747-787 | Renames are let through exactly onto names the merge vacates or that are neither tracked and kept nor on disk |
| `MergeFiles.OnlyRemovedAside` | internal/checkout/merge.go:747-787 | Once the check has passed only removed or merge-deleted rows are put aside |
| `MergeFiles.RenamesDestroyNothing` | internal/checkout/merge.go:742-787 | Once the check has passed, a file on disk that no rename takes away is left as it was |
| `MergeFiles.Checkout.ApplyMergeRenames` | internal/checkout/merge.go:959-1051 | Files and rows are renamed together or not at all |
| `CommitFiles.RenameLive` | internal/checkout/checkin.go:368-382 | Applying one live rename, whichever rows came before it, keeps the file set what the rows seen so far call for |
| `CommitFiles.ApplyRenames` | internal/checkout/checkin.go:335-383 | Whatever order the rows are gone through in, the names, old names and contents are those the rows call for |
| `CommitFiles.BuildCommitFiles` | internal/checkout/checkin.go:129-233 | A commit, full or of selected rows, holds exactly the files called for, uncovered ones by their artifact's name, chosen ones from disk when new or recorded as changed and else from their artifact, with the permission on disk and the name they come from; it is refused exactly when one cannot be read |
| `CommitFiles.CommitsTheDisk` | internal/checkout/checkin.go:161-223 | If a chosen row without a recorded change has its artifact's content on disk, the commit holds for every chosen file what is on disk |
| `CommitFiles.CommitUnique` | internal/checkout/checkin.go:129-233 | The commit's files are determined by parent, rows and disk alone, not by any order |
| `CommitFiles.ParentFileOnce` | internal/checkout/checkin.go:197-200 | By the origins recorded, each parent file is continued by at most one file of the commit, with its old name if renamed, when origins differ and the row at a chosen rename's origin is chosen too |
| `CommitFiles.OnceExactly` | internal/checkout/checkin.go:314-331 | Each parent file is in the commit at most once exactly when the name each chosen file had in the parent has a chosen row, or has none and a chosen row records it was renamed from it |
| `CommitFiles.RecordedOriginsOnce` | internal/checkout/checkin.go:314-331 | So it is when each chosen row records the parent name it came from |
| `CommitFiles.TwiceRenamedTwice` | internal/checkout/checkin.go:335-383 | A file renamed from a to b to c is committed as a and as c |
| `CommitFiles.LeftAloneExactly` | internal/checkout/checkin.go:245-304 | A commit leaves the parent's files it was not asked to record as they are exactly when no row left out stands at the name of a parent file with another artifact |
| `CommitFiles.LeftOutTakesContent` | internal/checkout/checkin.go:277-304 | With a renamed to b and b to c, committing c alone gives b the content of a, though b was left out |
| `CommitFiles.RemovedNowhere` | internal/checkout/checkin.go:332-366 | A parent file whose row is removed is in the commit under no name |
| `CommitFiles.OthersSomewhere` | internal/checkout/checkin.go:141-154 | A parent file whose row is not removed, or that has none, is in the commit |
| `BlobStore.StepInv` | internal/blob/blob.go:52-99 | Every operation keeps the phantom table the rows without content, no phantom a delta, names unique, and rows with content and what they are deltas of unchanged |
| `BlobStore.RunInv` | internal/blob/blob.go:101-203 | Over any sequence of stores the tables stay consistent, a name keeps its row, and what could be read reads the same |
| `BlobStore.ExpansionStays` | internal/content/content.go:72-180 | An expandable artifact stays expandable to the same content however the store grows |
| `BlobStore.ExpansionExactly` | internal/content/content.go:91-180 | A row expands to x exactly when its whole chain replays to x: the root's content, and each next row's delta applied to what came before |
| `BlobStore.DeltaReadsBack` | internal/blob/blob.go:315-363 | A delta stored of a row that replays to s reads back as the delta applied to s, if that is what its name says and the chain is not too long |
| `BlobStore.NamingByPolicy` | internal/hash/policy.go:56-130 | The algorithm and the reuse of legacy names under each of the five policies, under none, and the refusal of any other |
| `BlobStore.StoredReadsBack` | internal/blob/blob.go:177-203 | What is written in full under its hash can be read back at once |
| `BlobStore.NamingSticks` | internal/hash/policy.go:72-91 | Once SHA3 names new content because the repository holds or asked for it, every later operation leaves it so |
| `BlobRepository.Repository.Store` | internal/blob/blob.go:101-132 | Content is found under its primary name, or reused under the other exactly where that alone is held and may be, or written so that it reads back; refused exactly on an unknown policy |
| `BlobRepository.Repository.StoreUnderPolicy` | internal/blob/blob.go:149-173 | Content is stored under its policy name only, saying whether it filled a phantom |
| `BlobRepository.Repository.StoreDeltaRaw` | internal/blob/blob.go:315-363 | A received delta is stored and linked whatever the state of its source, unless the name is held, and reads back as the delta applied to what the source replays to |
| `BlobRepository.Repository.StorePhantom` | internal/blob/blob.go:365-402 | A known name keeps its row; an unknown one gets a phantom |
| `BlobRepository.Repository.WalkDeltaChain` | internal/content/content.go:254-305 | The chain returned runs from its root to the row; a cycle or an overlong chain, which have no content, is all that is refused |
| `BlobRepository.Repository.Expand` | internal/content/content.go:91-242 | The read by loops gives x exactly when the row's whole chain, within the bound, replays to x and x hashes to the row's name |
| `HistoryPath.Shortest` | internal/path/path.go:24-80 | The path returned is a shortest one over links either way off the skipped check-ins, and none is returned exactly when there is none |
| `HistoryPath.Advance` | internal/path/path.go:54-77 | When the queue has moved one link further out, every check-in within that distance has been visited |
| `Bisect.Outward` | internal/bisect/bisect.go:107-125 | The index found is the unskipped interior one nearest the middle, exactly when there is one |
| `Bisect.Session.Next` | internal/bisect/bisect.go:85-128 | It names a strictly interior unskipped check-in of a shortest path along primary links, the nearest to its middle, whenever there is one, is complete exactly when there is none, and refuses exactly missing ends, a good end below the horizon, or ends no path joins |
| `Bisect.MarkHalves` | internal/bisect/bisect.go:105-107 | Marking the middle good or bad leaves at most half the links, rounded up |
| `Bisect.MarksBounded` | internal/bisect/bisect.go:82-85 | With nothing skipped a session of n marks began with more than 2^(n-1) links, so it ends within the logarithm rounded up |
| `AttachStub.FieldLine` | internal/attachstub/stub.go:104-128 | A line holds a field exactly when it is that field's line and the field is valid |
| `AttachStub.Parse` | internal/attachstub/stub.go:80-134 | The ref returned is what the text says; none is returned exactly when the text is no stub |
| `AttachStub.SaysOne` | internal/attachstub/stub.go:80-88 | A text says at most one ref |
| `AttachStub.Format` | internal/attachstub/stub.go:42-72 | A ref is written exactly when it is valid and fits, and reads back as itself |
| `AttachStub.StubsAreOrders` | internal/attachstub/stub.go:80-84 | A text ending in a newline without carriage returns is accepted exactly when it is the header and the lines of its ref's stub in some order |

## Left out

- Cone serialization and its parser: the canonical lists are modelled, their bytes are not.
- `deck.WorktreePathname` and the reserved names: member validity is a parameter of cone building; only the length bound and non-emptiness are stated.
- Horizon hashes: a horizon is a value that is kept, its 40 or 64 hex digits are not checked.
- LineDiff.DiffContext.LongestCommonSequence: which of several anchored runs the score prefers is not stated, because the script is right for any.
- LineDiff.DiffContext.AnchoredRun: that the search finds something is stated for ranges of fewer than 9223300000 times 10^9 lines, below which every run scores above the lowest score.
- Finding a version's file, its parent and the store's horizon during a walk: each step back is given as a value that says what was met.
- Annotate.WalkAncestors: a lookup that fails is part of the given step, so what is promised about the horizon is only that it is the one met.
- Database errors and I/O errors, other than those named in a contract; the undo copies that restore working files after a failure.
- Receipts.Tx.Run: the work of a transaction is a script of receipt uses and savepoints; other rows are left out, and the row's other columns, and so is giving a transaction no receipt again after it had one.
- ContentCache.ReadReflectsReturnedWrites: a read resolves a name and then fetches content in two steps; the several rows of a delta chain are one fetch, and eviction is any removal.
- SparseCheckout.Checkout.SetCone: takes the rows as the scan left them; what merging an unresolved outcome gives is a parameter, and the table of merges is left out; ids and mtimes of rows are left out, and so are directories left empty.
- Reopening a legacy checkout whose cone is stored under the native name: the start of every run has none there.
- Marker.NameRemains: one process moves the database at a time and file operations do not fail; a second native name and SQLite side files are left out, and a recovery that finds the private name gone removes nothing.
- Revert.Checkout.RevertAll: dense records only.
- Revert of uncovered rows, the callback, and the pending-merge table.
- Choosing and merging file contents, matching files across versions, and checks on parent directories.
- CommitFiles.BuildCommitFiles: the parent's files are given with pending uncovered changes applied; resolving the selection, the refusals before it and manifest cards are left out.
- Compression, hashing and delta coding: functions given to the store, of which only the lengths of names are assumed.
- BlobRepository.Repository.StoreDeltaRaw: does not verify the delta, as the source does not; reading it does.
- Bisect.Session.Next: what is below the horizon is given as a set, and the log is a list of entries and not text.
- Status and listing of a bisection.
- The sync and transport engines, HTTP, the command line, signing, the simulation harness.
