# A model of the adapter layer's protocols, in Dafny

The adapter layer of the repository is mostly plumbing around a few cores that are not: parsers that must undo a
printer, loops that must leave a workspace as they found it, durable protocols, queues, and bounded arithmetic. This
project models those cores and proves what they are for. Verify it with `dafny verify dfyconfig.toml`.

| file | core |
|---|---|
| `UploadCodec.dfy`, `UploadReceiver.dfy` | the streaming upload into the validation container: host encoder, embedded receiver script, backpressure |
| `GlobBraces.dfy`, `GlobRegex.dfy`, `PathGlob.dfy` | path globs: brace expansion, translation to a regular expression, and the matcher on top |
| `GlobExact.dfy`, `GlobWitness.dfy` | for which patterns the expression reads the pattern segment by segment, and why for no others |
| `LineEdits.dfy`, `CodeMouth.dfy` | line edits with rollback in both ports, and the repair loop that keeps or undoes them |
| `EventLedger.dfy` | full and incremental verification of the hash-chained event ledger |
| `Training.dfy`, `OssCursor.dfy` | durable training of corpus items, and the file cursor over many runs |
| `PromiseQueue.dfy`, `ExecutionLock.dfy`, `ConnectorPacing.dfy` | the promise-chain queue, the per-directory lock, and the paced connector gate |
| `Offsets.dfy`, `Lexer.dfy` | UTF-16 to code-point ranges, lines and lexemes |
| `Jpeg.dfy`, `PixelBudget.dfy`, `PageLoop.dfy` | JPEG header reading, the pixel budget of scanned pages, the page loop |
| `Common.dfy` | shared types and sequence facts |

## How the model is built

Each core is a function on values, with the source's branches, constants and error cases, and beside it the loop or the
class that the source runs, proved equal to that function. The properties are lemmas about the functions, over every
input, run or interleaving.

What a core cannot decide is an input. Ports, the clock, Docker, the database, the PDF reader and the recognizer are
arbitrary answers: functions (`Ports` of the repair loop, `accepts` of the receiver), fates of calls (`CallFate`,
`Weather`), events and steps in any order. Digest and link of the ledger are arbitrary functions. The named assumptions are:

- `LinkInjective`: the link hash determines the previous ledger hash and the row hash, and is never empty. It is used
  for statements about equal heads and tampering only.
- `Readable`: the JSON header codec reads back what it printed for the headers of one upload, and prints no line feed.
  JSON text escapes control characters (section 7 of RFC 8259).
- `DigestInjective`: the digest determines the event it was taken of; for `SameHeadSameRows` only.
- `Compatible`: no checkpoint id stands for two texts of one snapshot; for undisturbed runs only, which a conflict would end.
- `IsRoot`: the square root is exact.
- `Folding`: case folding, the identity where file names are compared with case, fixes slash, star, question mark and the
  line terminators, and folds nothing else to them.
- `CommitAlone`: no training call commits an item while another one is about to write it. `TwoWorkersCommitTwice` shows what
  happens without it, `CommitWhileOtherWrites` that it is needed at each commit. `Exclusive` adds that no check falls between
  another call's check and put on the item; only the statement that bindings never change asks for it.
- The rows of the bounded first scan, which `governance-probe.ts` sorts once more with `localeCompare`, come out in the
  order of the database's query: ids of rows with equal times compare in the same way in both.
- The planner, the attempt recorder and the connector admission rule are arbitrary functions, with no assumption.

All three places that compute a ledger link do it in the same way: the text at line 171 of `governance-probe.ts` holds
the separator U+001F as a raw character, where lines 278 and 437 write it as an escape.

## Where the code and what is said of it differ

- A comment in `code-mouth.ts` (lines 277-287) takes progress to be monotone, so that the loop terminates. Two progress
  steps can lead back to where they began exactly when their touched files tell some diagnostic apart
  (`CycleIffTouchDiffers`, and `ProposalsMayCycle` on real proposals); otherwise the comment is right (`KeptStepsBounded`).
  The same comment says that a caller undoes all kept steps when it stops short; the loop keeps them (lines 117-122), and
  so does the model.
- Rollback of the TypeScript port leaves touched files that did not exist behind, empty (`RollbackLeaves`). The loop
  loses track of its workspace exactly when a rejected proposal touched a file that was not there, which can be checked before each
  apply (`InStepIffRejectsTouchPresent`). The port also takes two names of one file for two files
  (`RestoresAllIffOneName`).
- The clang port's apply hands out its rollback only when it returns: after a missing path the edits before it stay
  (`ClangThrowLeaves`).
- Whether a file written over a directory fails the receiver at once or by a stream error later is not distinguished: the upload fails.
- The limit on upload headers applies to a partial header only, so whether a header over the limit passes depends on the
  chunking. `ChunkingIrrelevantIffHeadersFit` gives the exact condition.
- The pixel budget is not kept by pages with a long side out of proportion, since a side never falls below one pixel.
  `PageFitsIffLongSideFits` gives the exact condition for one page, `DocumentWithinBudget` the exact one for a document.
- A comment in `document-wasm-extraction.ts` (lines 221-224) says that one unreadable page skips itself. A page that cannot be
  fetched at all aborts the document instead (`MissingPageDropsEverything`).
- A slash behind a pattern does not count, except that `./` matches nothing where `.` matches what lies below it
  (`SlashAddsNothing`, `DotTakesNoSlash`).
- A `**` that is only part of a segment matches across segments, takes the slash behind it, or stops at a line terminator;
  `SegmentReadingIff` says exactly when that matters. `.` does not match line terminators, and the segment matcher in the
  model says so for `**` segments.
- The incremental ledger observation does not see changes before its anchor, as the source says of itself. It also raises
  a false alarm when an event behind the anchor names a parent before it (`ParentAcrossAnchorAlarms`), since the kernel
  looks parents up in the list it is given; the bounded first scan does the same (`WindowAlarmIff`). `TamperSeenIff` and
  `ObserveAgreesIff` are the exact differences to a full scan.

## Model

| member | source | states |
|---|---|---|
| `UploadCodec.UploadRoundTrip` | packages/adapters-node/src/docker-sandbox-patch-validation.ts:343-357 | Every split of the upload stream into chunks and every pattern of refused writes ends in success, with exactly the entries sent, in order and byte for byte, if the entries fit into one file tree, on paths the script accepts; otherwise every one fails. |
| `UploadCodec.TruncatedUploadFails` | packages/adapters-node/src/docker-sandbox-patch-validation.ts:349 | Every proper prefix of a stream is rejected, however it is cut into chunks. |
| `UploadCodec.TrailingBytesFail` | packages/adapters-node/src/docker-sandbox-patch-validation.ts:348-349 | Every non-empty extension of a stream is rejected, in the chunk of the end record or in a later one. |
| `UploadCodec.RunVerdict` | packages/adapters-node/src/docker-sandbox-patch-validation.ts:343-349 | Where any run over a stream, a prefix or an extension of it stands once its end of input was handled: delivered, or failed as the entries fit into no file tree; behind the end record with the extension unread; or failed. |
| `UploadCodec.PumpKeeps` | packages/adapters-node/src/docker-sandbox-patch-validation.ts:348 | The pump keeps the invariant that buffered plus unread bytes are exactly what the receiver has left to do, and stops only when it has nothing left to use. |
| `UploadCodec.HandleKeeps` | packages/adapters-node/src/docker-sandbox-patch-validation.ts:348-349 | Every delivered event, data, drain or close, keeps that invariant. |
| `UploadCodec.WholeUploadRoundTrip` | packages/adapters-node/src/docker-sandbox-patch-validation.ts:348 | A stream that arrives in one chunk is delivered, exactly when its entries fit into one file tree, whatever the length of its headers: the limit is applied to a partial header only. |
| `UploadCodec.OversizedHeaderFails` | packages/adapters-node/src/docker-sandbox-patch-validation.ts:348 | For every header over 1048576 bytes there is a chunking of the same stream that fails. |
| `UploadCodec.ChunkingIrrelevantIffHeadersFit` | packages/adapters-node/src/docker-sandbox-patch-validation.ts:343-357 | An upload succeeds under every chunking and backpressure exactly when all its headers, the end record's too, are within the limit and its entries fit into one file tree. |
| `UploadCodec.DistinctFilesArrive` | packages/adapters-node/src/docker-sandbox-patch-validation.ts:343-357 | With distinct file paths the entries of a delivered upload leave exactly those files with exactly those bytes, and no other file. |
| `UploadCodec.TreeLikeIffHeld` | packages/adapters-node/src/docker-sandbox-patch-validation.ts:346-348 | Entries fit, pair by pair, exactly when all paths are accepted and some set of directories holds every entry: the directories among them and whatever a path leads through, and no file. |
| `UploadCodec.AcceptedIffNormal` | packages/adapters-node/src/docker-sandbox-patch-validation.ts:346 | A path is accepted exactly when it is not empty, has no backslash and, walked segment by segment from the root, never leaves it and arrives where its own segments say. |
| `UploadCodec.MalformedHeaderFails` | packages/adapters-node/src/docker-sandbox-patch-validation.ts:348 | A complete header line that is no JSON, names no acceptable path, or gives a file no size or mode fails the receiver with nothing stored for it. |
| `UploadReceiver.UploadChunks` | packages/adapters-node/src/docker-sandbox-patch-validation.ts:351-357 | The host loop's chunks, directories, files, end record, join to the stream, and no chunk is empty. |
| `UploadReceiver.DirectoryChunks` | packages/adapters-node/src/docker-sandbox-patch-validation.ts:352 | One header line per directory, in order. |
| `UploadReceiver.FileChunks` | packages/adapters-node/src/docker-sandbox-patch-validation.ts:353-356 | A header line and, when there are bytes, a body chunk per file, in order, behind what was there. |
| `UploadReceiver.ReceiverScript.PumpBuffer` | packages/adapters-node/src/docker-sandbox-patch-validation.ts:348 | The receiver loop over its mutable variables computes the pump function. |
| `UploadReceiver.ReceiverScript.OnData` | packages/adapters-node/src/docker-sandbox-patch-validation.ts:349 | The data callback: rejected after the end record, otherwise buffered and pumped. |
| `UploadReceiver.ReceiverScript.OnDrain` | packages/adapters-node/src/docker-sandbox-patch-validation.ts:348 | The drain callback resumes input and pumps. |
| `UploadReceiver.ReceiverScript.OnClosed` | packages/adapters-node/src/docker-sandbox-patch-validation.ts:347-348 | The close callback of a finished stream. |
| `UploadReceiver.ReceiverScript.OnEnd` | packages/adapters-node/src/docker-sandbox-patch-validation.ts:349 | The end callback: anything but an ended stream without a current file is a truncated upload. |
| `GlobBraces.FindClose` | packages/adapters-node/src/path-glob.ts:50-64 | The depth loop finds the brace that closes the leftmost group, or reports there is none. |
| `GlobBraces.SplitAlternatives` | packages/adapters-node/src/path-glob.ts:67-83 | The splitting loop computes the top-level alternatives. |
| `GlobBraces.ExpandBracesByLoop` | packages/adapters-node/src/path-glob.ts:47-65 | The recursive expansion with its loops terminates, as the count of opening braces falls, and computes the expansion function. |
| `GlobBraces.ExpansionShrinks` | packages/adapters-node/src/path-glob.ts:57-60 | Replacing the leftmost group by one of its alternatives leaves fewer opening braces. |
| `GlobBraces.AlternativeKeepsBalance` | packages/adapters-node/src/path-glob.ts:57-60 | Replacing the leftmost group by an alternative changes neither balance nor imbalance of the pattern. |
| `GlobBraces.ExpansionKeepsBalance` | packages/adapters-node/src/path-glob.ts:47-65 | Every expansion of a pattern is balanced exactly when the pattern is, and then has no brace. |
| `GlobBraces.BracelessIffBalanced` | packages/adapters-node/src/path-glob.ts:47-65 | No result contains a brace exactly when the pattern's braces balance. |
| `GlobBraces.AlternativesJoin` | packages/adapters-node/src/path-glob.ts:67-83 | The alternatives joined by commas are the group's body: the split loses nothing. |
| `GlobBraces.ExpansionOfTree` | packages/adapters-node/src/path-glob.ts:47-83 | The expansion of a printed alternation tree is exactly the list of its strings, in order: concatenation in sequence, union over alternatives. |
| `GlobBraces.ParseTree` | packages/adapters-node/src/path-glob.ts:47-83 | Every balanced pattern is the text of an alternation tree. |
| `GlobBraces.BalancedPatternExpansion` | packages/adapters-node/src/path-glob.ts:47-83 | A pattern is balanced exactly when it is the text of some tree, and its expansion lists the strings of each such tree. |
| `GlobRegex.PatternRegExp` | packages/adapters-node/src/path-glob.ts:85-99 | The compiling loop with the rewrite of a bare name produces the text of the translated pattern. |
| `GlobRegex.CompilePattern` | packages/adapters-node/src/path-glob.ts:88-99 | The index loop appends one piece of expression text per wildcard or character. |
| `GlobRegex.NextText` | packages/adapters-node/src/path-glob.ts:90-97 | The branches of the loop body: what is appended and how far the index moves. |
| `GlobRegex.RenderRoundTrip` | packages/adapters-node/src/path-glob.ts:91-97 | Expression text parses back to the atoms it was made from: the escaped characters are exactly those that need it. |
| `GlobRegex.ExpressionReads` | packages/adapters-node/src/path-glob.ts:85-100 | The produced expression always parses, to the translation of the rewritten pattern. |
| `GlobRegex.FoldedAcceptsMeaning` | packages/adapters-node/src/path-glob.ts:100 | Matching under the `iu` or the `u` flag is plain matching of the folded expression and path. |
| `GlobRegex.ExpressionMeaning` | packages/adapters-node/src/path-glob.ts:85-101 | Testing the produced expression against a path, under either of the two flag settings, is membership of the folded path in the language of the folded pattern's translation. |
| `GlobRegex.SegmentMeaning` | packages/adapters-node/src/path-glob.ts:95-97 | Inside a segment `*` and `?` match as usual and never a slash. |
| `GlobRegex.DirsMeaning` | packages/adapters-node/src/path-glob.ts:91-94 | `**/` takes zero or more whole segments, and only segments free of line terminators. |
| `GlobWitness.SegmentReadingIff` | packages/adapters-node/src/path-glob.ts:85-101 | For every pattern: the expression accepts exactly the paths of the segment matcher, over every path, if and only if each segment is `**`, or holds no `**`, or stands right behind a `**` segment and starts with pairs of stars followed by question marks and a star. |
| `GlobExact.TrimAccepts` | packages/adapters-node/src/path-glob.ts:91-95 | Behind `**/` such pairs of stars change nothing: `.*` takes what the segments before and the star behind it could. |
| `GlobWitness.OpenWitness` | packages/adapters-node/src/path-glob.ts:91-94 | A segment other than `**` whose last pair of stars takes the slash behind it: a path with too few segments. |
| `GlobWitness.CrossingWitness` | packages/adapters-node/src/path-glob.ts:93-94 | A pair of stars inside a segment takes a slash: a path with one segment more than the matcher can do with, whatever `**` segments stand around it. |
| `GlobWitness.StuckWitness` | packages/adapters-node/src/path-glob.ts:93-97 | Pairs of stars behind `**/` and with no star behind them: a path of the segment matcher whose line terminator `.*` cannot take. |
| `PathGlob.PathGlobMatchesByLoop` | packages/adapters-node/src/path-glob.ts:14-19 | The matcher with its loops decides whether some expansion's expression accepts the path. |
| `PathGlob.PathGlobMeaning` | packages/adapters-node/src/path-glob.ts:14-19 | Normalised pattern read as any tree of alternatives: the path matches exactly when one of the tree's strings does, segment by segment where that is right for every path and by the language of its translation otherwise, up to case where the platform ignores it. |
| `PathGlob.BalancedPatternCompiles` | packages/adapters-node/src/path-glob.ts:14-19 | A balanced pattern has such a tree, and none of its expansions holds a brace. |
| `PathGlob.BareNameSubtree` | packages/adapters-node/src/path-glob.ts:87 | A bare extensionless name matches exactly the paths below it, at any depth, whose further directories hold no line terminator, and not itself. |
| `PathGlob.MarksDoNotCount` | packages/adapters-node/src/path-glob.ts:14-44 | A raw pattern with at most one `./` taken from its front and one slash from its end is matched as what is between them. |
| `PathGlob.SlashesAreOne` | packages/adapters-node/src/path-glob.ts:14-44 | Exchanging slashes and backslashes in the pattern or in the path changes no match. |
| `PathGlob.SlashAddsNothing` | packages/adapters-node/src/path-glob.ts:42-44 | A slash behind a pattern that ends in none changes no match, for every pattern but `.`. |
| `PathGlob.DotTakesNoSlash` | packages/adapters-node/src/path-glob.ts:42-44 | For `.` it does: `./` matches nothing, while `.` matches what lies below it. |
| `PathGlob.DotAddsNothing` | packages/adapters-node/src/path-glob.ts:42-44 | A `./` in front of a pattern that starts with none changes no match. |
| `PathGlob.DirectoryIncludesSubtree` | packages/adapters-node/src/path-glob.ts:14-99 | A directory name as a raw pattern, with or without a slash behind it, matches exactly the paths below the directory whose further directories hold no line terminator. |
| `PathGlob.FileNameMatchesItself` | packages/adapters-node/src/path-glob.ts:14-99 | A raw name with an extension and without wildcards matches exactly itself. |
| `PathGlob.ExtensionOfLastSegment` | packages/adapters-node/src/path-glob.ts:87 | A name has an extension exactly when its last segment, with slashes behind it left aside, holds a dot behind its first character and is not `..`. |
| `LineEdits.SplitJoinIffUniform` | packages/adapters-node/src/code-mouth.ts:392-393 | Splitting into lines and joining with the file's own ending is the identity exactly when the endings are uniform. |
| `LineEdits.ReplaceKeepsOutside` | packages/adapters-node/src/code-mouth.ts:392-397 | With uniform endings a replace of existing lines changes those lines and nothing in front of or behind them. |
| `LineEdits.DeleteKeepsOutside` | packages/adapters-node/src/code-mouth.ts:398-399 | With uniform endings a delete of existing lines takes them out with one line ending, the one behind them if something follows, and leaves everything else as it was. |
| `LineEdits.EditsBeyondEnd` | packages/adapters-node/src/code-mouth.ts:395-399 | Behind the last line a replace appends its content as lines of its own and a delete changes nothing. |
| `LineEdits.AppendKeepsText` | packages/adapters-node/src/code-mouth.ts:400-402 | Without a start line, and for any other kind, the text stays and the content follows it. |
| `LineEdits.RollbackLeaves` | packages/adapters-node/src/code-mouth.ts:384-406 | Apply then rollback, for any operations and repeated paths, one name per file: existing files are exactly as they were, touched files that did not exist stay behind empty. |
| `LineEdits.RollbackRestoresIffExisting` | packages/adapters-node/src/code-mouth.ts:384-406 | One name per file, rollback restores the workspace exactly when every touched file existed. |
| `LineEdits.LastOperationWins` | packages/adapters-node/src/code-mouth.ts:386-404 | The last operation on a path decides its text, computed from the original text; other files are untouched. |
| `LineEdits.ClangRollbackRestores` | packages/adapters-node/src/clang-code-mouth-ports.ts:107-123 | The second port throws exactly when some used path is missing; otherwise the caller holds a rollback, and it restores every file. |
| `LineEdits.ClangThrowLeaves` | packages/adapters-node/src/clang-code-mouth-ports.ts:107-123 | When it throws no rollback reaches the caller and the operations before the first missing path stay applied; that equals the start exactly when those operations compose to nothing on every file. |
| `LineEdits.EditBeforeMissing` | packages/adapters-node/src/clang-code-mouth-ports.ts:107-123 | A concrete edit in front of a missing path that stays applied. |
| `LineEdits.OneNameSuffices` | packages/adapters-node/src/code-mouth.ts:384-406 | The port keys its originals by the path as given: when no touched file goes by two names, it does on given paths what it does on resolved ones, apply and rollback. |
| `LineEdits.RestoresAllIffOneName` | packages/adapters-node/src/code-mouth.ts:384-406 | For a set of names, rollback restores every workspace after every operations on present files under these names exactly when no file goes by two of them. |
| `LineEdits.TwoNamesKeepFirstEdit` | packages/adapters-node/src/code-mouth.ts:384-406 | Two names of one file: after the rollback the file holds the text of the first edit. |
| `LineEdits.ClangComposes` | packages/adapters-node/src/clang-code-mouth-ports.ts:107-119 | The second port re-reads the file: its operations on one path compose. |
| `LineEdits.ClangKeepsOutside` | packages/adapters-node/src/clang-code-mouth-ports.ts:114-117 | With uniform endings the second port's edit of existing lines puts the content, as it is, in their place and leaves the text in front of and behind them as it was. |
| `LineEdits.RepeatedPath` | packages/adapters-node/src/code-mouth.ts:384-405 | Two operations on one path: the first port keeps the second edit of the original, the other port the composition of both. |
| `LineEdits.Workspace.ApplyOperations` | packages/adapters-node/src/code-mouth.ts:384-404 | The apply loop over the workspace and its map of originals computes the apply function. |
| `LineEdits.Workspace.ClangApplyOperations` | packages/adapters-node/src/clang-code-mouth-ports.ts:107-119 | The second port's loop, with the operations it skips and the read that may throw. |
| `LineEdits.Workspace.WriteBack` | packages/adapters-node/src/code-mouth.ts:405 | Rollback writes every original back and nothing else. |
| `CodeMouth.PathlessCountsEverywhere` | packages/adapters-node/src/code-mouth.ts:297-298 | A diagnostic without a path counts as inside every touched file. |
| `CodeMouth.GateCountsMore` | packages/adapters-node/src/code-mouth.ts:248-254 | The gate counts exactly what the proposer is shown for the target, and the pathless diagnostics it is not shown. |
| `CodeMouth.ResolvedIsProgress` | packages/adapters-node/src/code-mouth.ts:261-309 | When ids identify diagnostics, a resolving step counts as progress exactly when there was something to resolve in the touched files. |
| `CodeMouth.ResolvedMayBringKind` | packages/adapters-node/src/code-mouth.ts:273-274 | The resolving step compares ids and lets a new kind through. |
| `CodeMouth.ReducedMayBringId` | packages/adapters-node/src/code-mouth.ts:306-308 | The kept step compares kinds and lets a new id through. |
| `CodeMouth.KindsNeverGrow` | packages/adapters-node/src/code-mouth.ts:193-208 | In every run, in step or not, the kinds of the diagnostics the loop holds are a subset of the starting kinds until it solves its target. |
| `CodeMouth.KeptStepsBounded` | packages/adapters-node/src/code-mouth.ts:193-208 | In every run whose kept proposals' touched files tell the diagnostics apart in the same way, kept steps plus remaining diagnostics there never exceed the starting count: a bound without the iteration ceiling. |
| `CodeMouth.SameTouchNeverCycles` | packages/adapters-node/src/code-mouth.ts:277-287 | So no such run holds its starting diagnostics again once it has kept a proposal. |
| `CodeMouth.TargetOnlyTouched` | packages/adapters-node/src/code-mouth.ts:295 | Proposals that edit only the target touch exactly that file. |
| `CodeMouth.CycleIffTouchDiffers` | packages/adapters-node/src/code-mouth.ts:277-309 | For two touched sets with the target, two steps that each count as strict progress can lead back to the start exactly when the sets classify some diagnostic differently. |
| `CodeMouth.ProposalsMayCycle` | packages/adapters-node/src/code-mouth.ts:85-225 | For any two proposals whose touched sets classify some diagnostic differently, there is a compiler under which the loop keeps both in turn and holds the diagnostics of the start again. |
| `CodeMouth.TryInStepIff` | packages/adapters-node/src/code-mouth.ts:193-208 | One proposal more: workspace, diagnostics and context stay those of the start with the kept proposals applied, exactly unless the proposal was rejected and had touched a file that was not there. |
| `CodeMouth.InStepIffRejectsTouchPresent` | packages/adapters-node/src/code-mouth.ts:85-225 | Over the whole run that holds at every loop head and at the end exactly when every rejected proposal touched only files present when it was tried; kept proposals may create any files. |
| `CodeMouth.InStepConverges` | packages/adapters-node/src/code-mouth.ts:193-225 | In step, every kept step strictly reduced the diagnostics it touched, and a last one that resolves leaves none there and no new id, with tests passing. |
| `CodeMouth.TryProposal` | packages/adapters-node/src/code-mouth.ts:168-208 | Apply, verify, judge, and undo on failure: verdict, verification and the new workspace in each of the three verdicts. |
| `CodeMouth.VerdictMeans` | packages/adapters-node/src/code-mouth.ts:183-193 | A proposal solves the target exactly when tests pass, no diagnostic is left in the touched files and none has a new id; it is rejected exactly when neither that holds nor both fewer are left there and no kind is new. |
| `CodeMouth.CeilingMeans` | packages/adapters-node/src/code-mouth.ts:112 | The attempts are used up after four at the earliest, and after as many as the caller allows, or eight for each starting diagnostic. |
| `CodeMouth.RunCodeMouth` | packages/adapters-node/src/code-mouth.ts:85-225 | The loop computes the run on values, for some list of proposals tried. Each of them is what the proposer answered at its head, permitted by the planner in the session a fold of its records gives, with the run going on; and each of the five outcomes comes exactly under its condition on that fold: the last proposal solved; the planner gave up on a rejected one or the time was over; nothing was proposed, with or without fixes on offer; the planner refused or the ceiling was reached. In every run kinds never grow and kept steps are bounded as above; both sides of that equivalence come with it, and when they hold the workspace is the start with exactly the proposals the gate did not reject, the reported diagnostics are those of that workspace, the kept steps converge, and a resolved end leaves no diagnostic in the touched files and no new id. |
| `EventLedger.SameHeadSameHistory` | packages/adapters-node/src/governance-probe.ts:433-442 | With an injective link that is never empty, two ledgers whose chains verify and end in the same ledger hash have the same length and the same row hash at every position. |
| `EventLedger.SameHeadSameRows` | packages/adapters-node/src/governance-probe.ts:421-443 | With a digest that binds its event as well, two ledgers that pass a full scan and end in the same ledger hash are equal, row by row. |
| `EventLedger.ScanMeans` | packages/adapters-node/src/governance-probe.ts:421-443 | A full scan passes exactly when there are rows, each one's hash is the digest of it with hashes of its parents as stored in the table, and each one's ledger hash links it to the row before. |
| `EventLedger.FailureClearsCheckpoint` | packages/adapters-node/src/governance-probe.ts:134-216 | In every mode an observation leaves a checkpoint exactly when it passed. |
| `EventLedger.AnchorFailureIff` | packages/adapters-node/src/governance-probe.ts:138-158 | For every table and checkpoint, earned or not: it is the anchor failure, with no checkpoint left, exactly when no row has the anchor's id and both its hashes; a passing observation means that some row has all three. |
| `EventLedger.OverwrittenAnchorAlarms` | packages/adapters-node/src/governance-probe.ts:138-158 | An anchor row whose stored hash or ledger hash was overwritten in place is reported, whatever follows it. |
| `EventLedger.StartReasons` | packages/adapters-node/src/governance-probe.ts:214-332 | What the reasons of a first call and of a storage error mean, on the rows that are read: all of them, or the newest ones of the window. |
| `EventLedger.PassingAnchorsNewest` | packages/adapters-node/src/governance-probe.ts:178-188 | A passing call leaves the newest row as its anchor, with that row's time and hashes and the count of all rows. |
| `EventLedger.VerifyEventChain` | packages/kernel/src/audit.ts:119-142 | The kernel's loop over the events with its map of rows: passes exactly when every hash is the digest of the event and its parents' hashes, every parent is in the list, and time never falls. |
| `EventLedger.ChainCut` | packages/kernel/src/audit.ts:119-142 | The check of a suffix alone, with the rows before it holding in the table, is the check of the table and no suffix row naming a parent before the cut. |
| `EventLedger.ScanCut` | packages/adapters-node/src/governance-probe.ts:421-443 | A full scan passes with no row reaching back over a cut exactly when the rows before the cut stand and the checks of the suffix pass. |
| `EventLedger.ObserveAgreesIff` | packages/adapters-node/src/governance-probe.ts:134-216 | From a checkpoint earned by the first rows of the table, the incremental observation passes exactly when a full scan would and no row behind the anchor names a parent at or before it; count and latest ledger hash are those of a full scan, and the new checkpoint is earned too. |
| `EventLedger.EveryObservationAgreesIff` | packages/adapters-node/src/governance-probe.ts:134-332 | Over any series of observations of tables that keep the covered rows, with a full or a bounded first scan, each one agrees with a full scan of its table exactly unless that scan passes and a row names a parent the call leaves out; where a bounded scan starts, the rows it leaves out are taken to stand. |
| `EventLedger.PassedOldRowsStand` | packages/adapters-node/src/governance-probe.ts:247-312 | In a ledger that passes a full scan they do stand. |
| `EventLedger.TamperSeenIff` | packages/adapters-node/src/governance-probe.ts:134-216 | With the anchor in place, the two verdicts differ exactly when the probe passes and the rows up to the anchor do not stand, or the full scan passes and a row behind the anchor names a parent at or before it; the counts differ exactly when rows were added or lost before the anchor. |
| `EventLedger.TamperBeforeAnchorUnseen` | packages/adapters-node/src/governance-probe.ts:134-216 | A changed row hash before the anchor passes the probe and fails the full scan. |
| `EventLedger.ParentAcrossAnchorAlarms` | packages/adapters-node/src/governance-probe.ts:134-216 | Under every digest and link, a parent and a child with a checkpoint between them: the full scan passes, the probe reports an invalid event chain and drops its checkpoint. |
| `EventLedger.WindowAlarmIff` | packages/adapters-node/src/governance-probe.ts:247-312 | On a table that passes a full scan the bounded first scan raises an alarm exactly when a row in its window names an older parent, and otherwise leaves the same observation and checkpoint. |
| `EventLedger.CheckLinks` | packages/adapters-node/src/governance-probe.ts:168-174 | The link loop lists exactly the broken links, with expected and observed hash. |
| `EventLedger.Probe.ObserveEventLedger` | packages/adapters-node/src/governance-probe.ts:134-216 | One call over the mutable checkpoint, in every mode and on a storage error. |
| `EventLedger.Probe.ObserveSuffix` | packages/adapters-node/src/governance-probe.ts:138-208 | The anchor and suffix check. |
| `EventLedger.Probe.ObserveWindow` | packages/adapters-node/src/governance-probe.ts:247-312 | The bounded first scan. |
| `EventLedger.Probe.ObserveAll` | packages/adapters-node/src/governance-probe.ts:314-332 | The full scan that sets the checkpoint. |
| `Training.StepSafe` | packages/adapters-node/src/language-corpus-trainer.ts:325-356 | Every step of a call, with crashes, aborts, rejected accesses and lost acknowledgements between any two, keeps the invariant, if no check falls between another call's check and put on the item and no commit while another call is about to write; complete rows, bindings and commits only ever grow. |
| `Training.RunSafe` | packages/adapters-node/src/language-corpus-trainer.ts:325-356 | The same over whole runs of any number of workers, with the calls on one item kept apart. |
| `Training.RunConsistent` | packages/adapters-node/src/language-corpus-trainer.ts:325-356 | With commits alone kept apart, every run keeps complete rows and commits in agreement, and neither ever goes away. |
| `Training.TrainingIsExactlyOnce` | packages/adapters-node/src/language-corpus-trainer.ts:476-529 | Over every run in which no call commits an item while another is about to write it, an item is committed at most once, has a complete checkpoint exactly when it was committed, and every report handed out is the committed one; checks may fall anywhere. |
| `Training.MismatchWritesNothing` | packages/adapters-node/src/language-corpus-trainer.ts:312-337 | A row bound to something else makes every step of a call leave the storage as it is and return no report. |
| `Training.LostAcknowledgementRecovers` | packages/adapters-node/src/language-corpus-trainer.ts:344-356 | After a lost acknowledgement both reconciling and calling again return the committed report. |
| `Training.TwoWorkersCommitTwice` | packages/adapters-node/src/language-corpus-trainer.ts:325-342 | Two calls past their second check: the later one downgrades the complete row and commits the item a second time. |
| `Training.CommitWhileOtherWrites` | packages/adapters-node/src/language-corpus-trainer.ts:325-342 | That condition is needed at each commit: in every consistent state a commit while another call on the item is about to write lets that call's next step break the fence. |
| `Training.TrainIsARun` | packages/adapters-node/src/language-corpus-trainer.ts:476-529 | The whole call, in each of its fates, is a run of the protocol's steps with the same storage and result. |
| `Training.TrainSafe` | packages/adapters-node/src/language-corpus-trainer.ts:476-529 | A call keeps storage sound and moving forward, and a report means the item is trained under this binding. |
| `Training.TrainAnswers` | packages/adapters-node/src/language-corpus-trainer.ts:312-342 | What a call answers over the row it finds: a conflict exactly over a row bound to something else; the committed report over the item's own complete row, with storage as it was; otherwise a report exactly when its commit is acknowledged, and one commit more when it goes through. |
| `Training.TrainTwice` | packages/adapters-node/src/language-corpus-trainer.ts:476-485 | A call that reported, made again, reports the same and changes nothing. |
| `Training.CorpusStorage.PrepareCheckpoint` | packages/adapters-node/src/language-corpus-trainer.ts:325-342 | The checkpoint fence on the storage fields: conflict, replay, a running row, or a rejected access that leaves storage as it was. |
| `Training.CorpusStorage.CommitPrepared` | packages/adapters-node/src/language-corpus-trainer.ts:497-529 | The commit path on the storage and on the token: what is written, when the token is spent, when it can be used again, and what a rejected check leaves. |
| `Training.CorpusStorage.TrainText` | packages/adapters-node/src/language-corpus-trainer.ts:476-485 | The whole call on the mutable storage computes the call function. |
| `OssCursor.DyingCallIsARun` | packages/adapters-node/src/language-corpus-trainer.ts:325-356 | A call that dies at any of its steps leaves the storage a run of the protocol's steps ending in a crash leaves. |
| `OssCursor.TrainFileSafe` | packages/adapters-node/src/oss-corpus.ts:233-314 | A file's projections: all of its work is trained when the file completes, and storage stays sound and forward in every case. |
| `OssCursor.TrainWindowSafe` | packages/adapters-node/src/oss-corpus.ts:175-323 | The window loop: completed files are trained, the first incomplete one is remembered, a conflict, an uncaught read or a crash ends the run. |
| `OssCursor.RunSafeAt` | packages/adapters-node/src/oss-corpus.ts:175-325 | One run, which may die in any call, in any file or between files: the cursor stops at the first file with a failed projection or behind the last considered file, and there is no report exactly when the run threw or died; later files in the window are still trained. |
| `OssCursor.RunExactly` | packages/adapters-node/src/oss-corpus.ts:140-325 | A run considers files one by one from its start until one ends it, it dies, the heap is full, or it has considered as many as it may; storage and report are those of a fold over just these files, and the report is the first incomplete one or the number of them. |
| `OssCursor.ReportsShort` | packages/adapters-node/src/oss-corpus.ts:325 | Where a run reports less than all it may consider, the file at the reported index ended incomplete or the heap was full there. |
| `OssCursor.ReportsWhole` | packages/adapters-node/src/oss-corpus.ts:325 | A run that reports, with no incomplete file and no full heap, reports exactly the smaller of start plus files per run and the number of files. |
| `OssCursor.RunMovesCursor` | packages/adapters-node/src/oss-corpus.ts:325 | Everything below the new cursor is trained when everything below the start index was, and the cursor does not move back. |
| `OssCursor.CampaignSafe` | packages/adapters-node/src/oss-corpus.ts:175-325 | Over any number of runs, crashed ones included, each started where the last report said, the cursor never moves back and everything below it stays trained. |
| `OssCursor.EveryFileBelowCursorOnce` | packages/adapters-node/src/oss-corpus.ts:175-325 | From empty storage, over crashed and finished runs, every selected non-empty projection of every file below the cursor is committed exactly once. |
| `OssCursor.UndisturbedRun` | packages/adapters-node/src/oss-corpus.ts:140-325 | A run in which nothing goes wrong reports, and has considered all it may. |
| `OssCursor.UndisturbedCampaignFinishes` | packages/adapters-node/src/oss-corpus.ts:140-325 | With room for a file in each run, as many undisturbed runs as there are files bring the cursor from empty storage to the last file, with every selected non-empty projection committed exactly once. |
| `OssCursor.SelectionMeans` | packages/adapters-node/src/oss-corpus.ts:182-236 | What is trained of a file: a document's text if documents are included; with sources included, a code file's surface and, if documents are included too, its prose; nothing that is blank. |
| `OssCursor.TrainFileByLoop` | packages/adapters-node/src/oss-corpus.ts:235-314 | The projection loop on the mutable storage, with the error path that looks for a committed checkpoint. |
| `OssCursor.TrainOssCorpus` | packages/adapters-node/src/oss-corpus.ts:175-325 | The file loop with its counters computes the run function. |
| `PromiseQueue.ArriveKeeps` | packages/adapters-node/src/process.ts:70-74 | Joining the chain of promises keeps the queue invariant. |
| `PromiseQueue.CleanKeeps` | packages/adapters-node/src/process.ts:80 | Removing the map entry only when it is one's own keeps the queue invariant. |
| `PromiseQueue.ExclusiveInOrder` | packages/adapters-node/src/process.ts:69-82 | A later task on a key has entered only if every earlier one is done. |
| `PromiseQueue.FirstCanProceed` | packages/adapters-node/src/process.ts:73-75 | The first task not done, with all before it done, may enter. |
| `ExecutionLock.OneInsideInArrivalOrder` | packages/adapters-node/src/process.ts:69-82 | In every interleaving at most one operation per directory is inside, and operations enter in arrival order, whether earlier ones threw or not. |
| `ExecutionLock.EntryIffInUse` | packages/adapters-node/src/process.ts:70-80 | The map holds a directory exactly while some operation on it waits or is inside. |
| `ExecutionLock.NeverStuck` | packages/adapters-node/src/process.ts:69-82 | While anything waits on a directory, some operation on it is inside or can enter. |
| `ExecutionLock.ExecutionBaseLocks.Register` | packages/adapters-node/src/process.ts:70-74 | The synchronous piece up to the wait. |
| `ExecutionLock.ExecutionBaseLocks.StartOperation` | packages/adapters-node/src/process.ts:75-77 | Entering after the wait. |
| `ExecutionLock.ExecutionBaseLocks.Release` | packages/adapters-node/src/process.ts:78-81 | The finally block: release, and delete one's own entry only. |
| `ConnectorPacing.StartKeeps` | packages/adapters-node/src/connector-policy.ts:130-143 | Starting one's turn in the queue, with or without a timer, keeps the gate invariant. |
| `ConnectorPacing.BeginKeeps` | packages/adapters-node/src/connector-policy.ts:144-174 | Deciding a request keeps the gate invariant: spacing, order, exact counts, quotas. |
| `ConnectorPacing.ElsewhereKeeps` | packages/adapters-node/src/connector-policy.ts:152-174 | A request of another connector keeps it too, though it uses up the shared count. |
| `ConnectorPacing.WebAdmissionsPaced` | packages/adapters-node/src/connector-policy.ts:126-150 | In every interleaving web requests are admitted in arrival order, `n` of them at least `n` spacings apart. |
| `ConnectorPacing.DeclaredRateKept` | packages/adapters-node/src/connector-policy.ts:134-136 | In terms of the declared rate, with rates below one counting as one: `n` admissions take at least `n` times 60000/rate milliseconds. |
| `ConnectorPacing.WebOneAtATime` | packages/adapters-node/src/connector-policy.ts:126-150 | One web request at a time is between its wait and its decision. |
| `ConnectorPacing.AdmittedBelowLimit` | packages/adapters-node/src/connector-policy.ts:99-115 | Every admission in a trace found fewer earlier admissions in its scope than the limit of its own call: its gate's policy limit, and inside a budget scope the per-turn limit too. |
| `ConnectorPacing.QuotaNeverExceeded` | packages/adapters-node/src/connector-policy.ts:99-115 | Under any interleaving the admissions of a scope never exceed any bound on the limits of the calls made in it. |
| `ConnectorPacing.BeginningDecides` | packages/adapters-node/src/connector-policy.ts:145-174 | After every interleaving, deciding about a web request enters it exactly when the other rules permit it and its count is below the policy's limit and, inside a budget scope, below the limit per turn; it is then the one remembered for pacing. Otherwise log, counts and pacing stay. |
| `ConnectorPacing.ElsewhereDecides` | packages/adapters-node/src/connector-policy.ts:152-174 | The same for another connector's request, which leaves the pacing alone. |
| `ConnectorPacing.GateIsHistory` | packages/adapters-node/src/connector-policy.ts:99-174 | After every interleaving requests, clock and log are functions of the steps alone: the log is the fold that enters exactly the allowed requests. |
| `ConnectorPacing.CountsAreTheLogs` | packages/adapters-node/src/connector-policy.ts:115-172 | The counts the gates keep are those of that log. |
| `ConnectorPacing.WaitIsExact` | packages/adapters-node/src/connector-policy.ts:130-143 | A timer is set exactly when the last web admission is less than the spacing ago and the quota would let the request through, and it runs until the first millisecond that is not. |
| `ConnectorPacing.SharedConnectorState.Queueing` | packages/adapters-node/src/connector-policy.ts:127-130 | The piece that joins the queue. |
| `ConnectorPacing.SharedConnectorState.StartTurn` | packages/adapters-node/src/connector-policy.ts:131-143 | The piece that computes the wait and sets the timer. |
| `ConnectorPacing.SharedConnectorState.Begin` | packages/adapters-node/src/connector-policy.ts:145-174 | The piece that decides, records the time and counts. |
| `Offsets.MapOffsets` | packages/adapters-node/src/code-graph.ts:1108-1120 | The one-pass cursor maps every offset to the number of code points that start before it. |
| `Offsets.ToCodePointRanges` | packages/adapters-node/src/code-graph.ts:1107-1124 | Ranges are mapped at both ends and kept, in order, when they hold a code point start. |
| `Offsets.RangeKeptIff` | packages/adapters-node/src/code-graph.ts:1121-1123 | A range survives exactly when a code point starts in it. |
| `Offsets.CountGrowsIff` | packages/adapters-node/src/code-graph.ts:1114-1119 | The count grows between two offsets exactly when a code point starts there. |
| `Offsets.SlicesAgree` | packages/adapters-node/src/code-graph.ts:1106-1124 | Between boundaries the code-point slice is the decoding of the UTF-16 slice. |
| `Offsets.BoundaryOrder` | packages/adapters-node/src/code-graph.ts:1106-1124 | Between boundaries order is kept both ways. |
| `Offsets.OverlapPreserved` | packages/adapters-node/src/code-graph.ts:1106-1124 | Aligned ranges overlap exactly when their code-point ranges do. |
| `Lexer.ReadQuoted` | packages/adapters-node/src/code-graph.ts:820-833 | A quotation ends at its first unescaped quote or at the end of the line. |
| `Lexer.RunEnd` | packages/adapters-node/src/code-graph.ts:296-310 | An identifier or number extends as far as its units go. |
| `Lexer.LexLine` | packages/adapters-node/src/code-graph.ts:281-315 | The lexemes of a line are in order, apart, as long as they can be, of the right kind, with only white space around them. |
| `Lexer.SplitLines` | packages/adapters-node/src/code-graph.ts:263-279 | The lines of a text, each with its terminator's shape, number, positions and lexemes. |
| `Lexer.QuotedUnique` | packages/adapters-node/src/code-graph.ts:820-833 | A quotation has one possible end. |
| `Lexer.LexingUnique` | packages/adapters-node/src/code-graph.ts:281-315 | That description leaves one list of lexemes for every line. |
| `Lexer.LinesRebuildText` | packages/adapters-node/src/code-graph.ts:263-279 | Lines with their terminators, put together, are the text. |
| `Lexer.LineAtIndex` | packages/adapters-node/src/code-graph.ts:263-279 | Every line stands where it says, behind all lines before it. |
| `Lexer.LexemesSliceText` | packages/adapters-node/src/code-graph.ts:263-315 | Every lexeme's text is the whole text's slice at its positions, and lexemes strictly increase without overlap, across lines too. |
| `Jpeg.JpegDimensions` | packages/adapters-node/src/document-wasm-extraction.ts:120-138 | The marker loop terminates on every byte array, reads in bounds only, and computes the scanning function. |
| `Jpeg.LengthRead` | packages/adapters-node/src/document-wasm-extraction.ts:195 | The reader gets back every 16-bit number from its two-byte form. |
| `Jpeg.FrameHeadersAre` | packages/adapters-node/src/document-wasm-extraction.ts:131 | Frame headers are the markers C0 to CF but C4, C8 and CC. |
| `Jpeg.ReaderFindsFirstFrame` | packages/adapters-node/src/document-wasm-extraction.ts:120-138 | For every sequence of marker segments with fill bytes and standalone markers, closed by end of image or start of scan, the result is the first frame header's dimensions, or nothing. |
| `Jpeg.DimensionsComeFromAFrame` | packages/adapters-node/src/document-wasm-extraction.ts:120-138 | On any bytes at all, dimensions come from a complete frame header that stands in them. |
| `PixelBudget.PageFitsIffLongSideFits` | packages/adapters-node/src/document-wasm-extraction.ts:238-253 | A page scaled for its budget keeps within a limit from that budget on exactly when its longer side squared, times the budget, is below the limit plus one squared times the requested pixels. |
| `PixelBudget.DrawnSize` | packages/adapters-node/src/document-wasm-extraction.ts:238-250 | A page is drawn in full when it is within its budget, and otherwise with both sides scaled by the square root of the budget over its pixels; no side below one pixel. |
| `PixelBudget.SidesOfAPixelFit` | packages/adapters-node/src/document-wasm-extraction.ts:249-253 | Scaled sides of at least one pixel always keep the page within its budget. |
| `PixelBudget.StockyFitsEveryBudget` | packages/adapters-node/src/document-wasm-extraction.ts:238-253 | A page fits every budget that may be left exactly when its longer side squared is below four times its requested pixels. |
| `PixelBudget.ThinStripExceeds` | packages/adapters-node/src/document-wasm-extraction.ts:251-252 | A concrete strip takes twice the document's whole budget, because a side is never rounded below one pixel. |
| `PageLoop.RenderScannedPdfText` | packages/adapters-node/src/document-wasm-extraction.ts:227-292 | The page loop with its counters computes the extraction function, in every outcome. |
| `PageLoop.EveryPageAccounted` | packages/adapters-node/src/document-wasm-extraction.ts:227-292 | Pages read plus pages skipped are the pages passed, each of which was in time, could be fetched and found pixels left; each skipped page for its own fault; the text is exactly the read pages' within the byte limit; the loop ends early only for the deadline, the pixels used up, the byte limit, or a page that cannot be fetched. |
| `PageLoop.MissingPageDropsEverything` | packages/adapters-node/src/document-wasm-extraction.ts:236 | A document whose first pages were read, and would be its result if it ended there, loses all their text when the next page cannot be fetched. |
| `PageLoop.TurnWithinBudget` | packages/adapters-node/src/document-wasm-extraction.ts:238-253 | A turn counts pixels exactly when it draws its page; they keep within the page's budget, and leave the document's kept, exactly when its longer side fits the one and the other. |
| `PageLoop.DocumentWithinBudget` | packages/adapters-node/src/document-wasm-extraction.ts:227-279 | Cumulative pixels never exceed 48,000,000 exactly when every page that is drawn fits what is left in its turn. |
| `PageLoop.StockyDocumentFits` | packages/adapters-node/src/document-wasm-extraction.ts:227-279 | A document without pages four times as long as wide is such a sequence, in any order and with any failures. |
| `PageLoop.BoundedUtf8Text.Append` | packages/adapters-node/src/document-wasm-extraction.ts:321-333 | Appending succeeds exactly while the byte limit allows it, and otherwise changes nothing. |
| `PageLoop.AppendPage` | packages/adapters-node/src/document-wasm-extraction.ts:264-265 | The form feed and text of a recognized page. |

## Left out

- GlobRegex.PatternRegExp: gives the text of the expression; its flags are the `fold` of `ExpressionTest`. Strings are sequences of code points, as under the `u` flag, so lone surrogates are not modelled.
- UploadCodec.UploadRoundTrip: says nothing of an upload whose writes are refused forever without a drain; the input then never ends. Duplicate paths in one upload arrive in order, but only `DistinctFilesArrive` speaks of the resulting files.
- CodeMouth.RunCodeMouth: a port that throws in the middle of the loop is not modelled, as the loop has no handler; paths of diagnostics are given in the spelling the loop compares, so lower-casing itself is not modelled.
- CodeMouth.KeptStepsBounded: the kept steps' touched files tell the diagnostics apart in the same way, as those of all steps do that edit only the target; `CycleIffTouchDiffers` shows that without this the comment is false.
- Training.TrainingIsExactlyOnce: commits on one item are kept apart (`CommitAlone`), and a checkpoint is supplied; calls without one have no fence.
- EventLedger.Probe.ObserveWindow: takes the window's second sort to be the order of the query.
- ConnectorPacing.WebAdmissionsPaced: the policy and the rate are fixed, and web requests come through the queue; a direct call of `begin` for the web is neither queued nor paced.
- ConnectorPacing.QuotaNeverExceeded: each call carries its gate's policy limit; a policy patch that changes while a request waits in the queue is not modelled.
- PixelBudget.PageFitsIffLongSideFits: sides, scales and the square root are real numbers; rounding in binary floating point is not modelled, nor that a viewport may not be exactly proportional to its scale.
- EventLedger.WindowAlarmIff: the bounded first scan is no guarantee for the whole history, by design, and none is claimed.
- LineEdits.RollbackLeaves: files are identified by one name each; `RestoresAllIffOneName` says exactly what that leaves out.
- LineEdits.RollbackRestoresIffExisting: the same.
- The environment of the cores: Docker, git, ffmpeg, compilers, Postgres, HTTP, DNS and the file system below the workspace map.
- The kernel but for its event chain check, SHA-256 and the text of JSON.
- The clock running backwards, and the order of timers that fire at the same moment.
- The create and cleanup steps of `executeProgram` around the directory lock, and the output budget of `runBoundedProcess`.
- Cancellation and eviction details of the connector records, and the list of the last 200 records.
- The proposers of the repair loop, clang's output parsing with `unescapeFixitText`, and the search for a project file.
- The learned rows themselves: a commit is one opaque report per item; graph snapshots that change before a commit count as aborts.
- WebP, TIFF, PNG, GIF and BMP headers, embedded PDF text, and the recognizer.
- `approval-session.ts`, `document.ts` page offsets, `program-repair.ts`: their obvious claims are not what the code does, or there is nothing stable to state.
- Configuration, settings, secrets, redaction, media types, calibration weights, walkers, reports and commands: branch tables or calls into parts outside this model.
