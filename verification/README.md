# SignalForge, verified

A Dafny model of the logic at the centre of the SignalForge repository, and proofs about it. Nothing
here replaces the running code: the model restates what the code does, branch by branch, and Dafny
checks what follows from it.

`dafny verify dfyconfig.toml` checks the whole project.

## What is modelled

**The line differ of the YAML workbench** (`LineText`, `LineEndings`, `Alignments`, `LineDiff`,
`FormatDiff`, `DiffMirror`). `LineEndings` says what the lines of any text are, whatever endings it
uses. A suffix table of common-subsequence lengths, a greedy walk through it, and a prefix/suffix
approximation above a million cells. Common subsequences are defined as alignments, not by the
recurrence, so that the table, the walk and the counts can be shown optimal. The final-newline
metadata is decided on the raw texts, before carriage returns become newlines; `FormatDiff` says
exactly when it is nevertheless true of the normalized ones. `DiffMirror` says exactly when
exchanging the two texts gives the same rows seen from the other side.

**The Console's scope protocol** (`Session`, `SessionMeaning`, `SessionState`, `ActivityLog`,
`ConsoleRuns`, `ConsoleSafety`). `SessionState.State` is the mutable object, proved against the
functions of `Session`; `SessionMeaning` says what those do, and that after any run the scope is
what the last accepted calls asked for. `ConsoleRuns` lets any number of resource and diagnostics
requests run against it, one critical section at a time, in every interleaving with scope changes
and Close; `ConsoleSafety` proves what every run keeps.

**Bounded output of the Console** (`ResourceLists`, `ListMeaning`, `Utf8`, `SafeText`,
`ShellPreview`, `PreviewMeaning`). Truncation flags, text sanitising on bytes, and the POSIX quoting
of command previews with the shell's own reading of it.

**The ForgeOps evidence pipeline** (`Evidence`, `EvidenceComparison`, `ComparisonContract`,
`Runbooks`, `RunbookMapping`, `MappingMeaning`, `MappingContract`, `Incident`, `IncidentContract`,
`SnapshotContext`, `SnapshotBriefs`, `BriefMeaning`, `Pipeline`, with `Lexicographic` and
`CanonicalOrder` beneath them). Each stage has a producer and a strict reader. Every reader is a
loop proved to accept exactly a declared set of documents; reading and rendering are inverse on it;
and every producer's output lies in the next reader's set. `BriefMeaning` states what acceptance of
the final document implies about the two snapshots. That what is rendered is read back unchanged,
and that an accepted document is the one rendering of what was read, follow at once from what the
readers are proved to accept (`ComparisonContract.ReadRendered` and `RenderRead`,
`IncidentContract.ReadRenderedBrief`, `SnapshotBriefs.ReadRenderedSnapshotBrief`), and so does the
list of facts that `BriefMeaning.FactsAreTheChanges` spells out.

**The evaluator** (`Evaluation`, `Verdict`, `VerdictMeaning`, `EvidenceReading`, `ImageDigests`,
`CheckTexts`, `ReportTexts`, `ReportIdentifiers`, `EvaluatedEvidence`, with `StableSort`). The
decision over collected JSON values with Python's notions of truth, integer and equality: which
checks are reported, the conditions for exit codes 0 and 2, what each check says, when two checks
share an identifier or a text is empty, and hence exactly when the evidence loader accepts what an
evaluation writes. `EvidenceReading` says of the JSON itself, key by key, when each check passes.

**The document tree** (`YamlPaths`, `TreeIndex`, `TreeIdentity`, `TreeRecords`, `TreeSearch`,
`TreeSearchMeaning`, `HighlightedText`). Path texts as a code that can be read back, identifiers
that name nodes, ancestors, and a highlighter that agrees with the filter. Strings are UTF-16 code
units. `trim` and case folding are parameters.

## How the code differs from what one might expect

- The differ's `newlineChange` is true of the normalized texts exactly when both or neither end in a
  carriage return (`FormatDiff.NewlineChangeIsNormalIff`). Otherwise it may be reported between texts
  that are equal once normalized (`NewlineReportedYetEqual`), or not be reported between texts that
  differ (`NothingReported`, `NothingReportedYetDifferent`).
- A diff that reports nothing at all means equal texts when one of them holds no carriage return
  (`FormatDiff.SilenceMeansEqual`), and not otherwise (`SilentLineEndings`).
- Exchanging the differ's inputs mirrors its rows exactly when the walk meets no tie or, above the
  cell limit, when one of the middles is empty (`DiffMirror.SwapMirrorsRowsIff`);
  `FormatDiff.SwapDoesNotReverseRows` is a pair of texts at which it does not.
- Highlighted text reads like the query, up to case, exactly when folding and cutting commute where
  the search stops (`HighlightedText.MatchesSpellQueryIff`, `EveryQuerySpellsIff`). Folding that keeps
  the length and treats every stretch as it would alone is enough (`InPlaceSpells`). Folding that
  moves what follows highlights other letters, in full and inside the source (`ShiftedMatch`), or
  beyond its end (`TreeSearchMeaning.LengtheningBreaksIt`); folding that looks at the context does so
  without changing any length (`FinalSigma`).
- `evaluate` does not return when the name of a Pod is a list or an object (`Verdict.Evaluate`, and
  `EvaluatedEvidence.UncountableName` for such a snapshot).
- An evaluation can write what the loader refuses. Its identifiers are distinct exactly when the HTTP
  items, and the Pods listed in each namespace, have different names
  (`ReportIdentifiers.IdentifiersDistinctIff`), and its texts are not empty exactly when every item
  consulted has a source and names its error (`ReportTexts.TextsWrittenIff`); both together are what
  acceptance takes (`EvaluatedEvidence.ReportIsAcceptedIff`). Two nameless Pods are enough for a
  refusal (`EvaluatedEvidence.NamelessPods`).
- A routing check counts an endpoint whose `ready` is neither a boolean nor absent in no column, and
  so passes with it (`VerdictMeaning.OddReadinessPasses`). `VerdictMeaning.RoutingPassMeans` says
  exactly when a passing check means that all endpoints are ready.

## Model

| member | source | states |
|---|---|---|
| LineText.LinesRebuildText | apps/forge-yaml-workbench/src/format-diff.js:1-7 | the lines, joined again, give the text back up to the kind of line ending, and no line holds a line break |
| LineText.LinesOfUnlines | apps/forge-yaml-workbench/src/format-diff.js:1-7 | a line sequence survives being written out and split again exactly when the text ends in a newline, or has no lines, or its last line is not empty |
| LineText.EqualLines | apps/forge-yaml-workbench/src/format-diff.js:1-7 | texts with equal lines are equal after normalization exactly when both or neither then end in a newline |
| LineEndings.NormalizeConcat | apps/forge-yaml-workbench/src/format-diff.js:2 | texts are normalized piece by piece unless the cut goes through a CR LF, whatever the pieces |
| LineEndings.NormalizeCrLf | apps/forge-yaml-workbench/src/format-diff.js:2 | between any two texts a CR LF becomes one newline |
| LineEndings.NormalizeCr | apps/forge-yaml-workbench/src/format-diff.js:2 | so does a carriage return before anything but a newline |
| LineEndings.NormalizeLf | apps/forge-yaml-workbench/src/format-diff.js:2 | a newline after anything but a carriage return stays one newline |
| LineEndings.LinesOfWritten | apps/forge-yaml-workbench/src/format-diff.js:1-7 | lines written with any mixture of LF, CR and CR LF, and a last line without an ending, split back into those lines |
| LineEndings.EveryTextIsWritten | apps/forge-yaml-workbench/src/format-diff.js:1-7 | every text is so written, so its lines are determined |
| LineEndings.EndingsAreNotChanges | apps/forge-yaml-workbench/src/format-diff.js:39-58 | between two texts that differ in their line endings only the diff adds and removes nothing, on either path |
| LineEndings.CrLfAgainstLf | apps/forge-yaml-workbench/src/format-diff.js:36-47 | a text with CR LF throughout has the lines of its LF form, and against it the diff reports changed line endings and nothing else |
| Alignments.LcsIsLongest | apps/forge-yaml-workbench/src/format-diff.js:62-68 | the recurrence is the size of a largest alignment (a strictly increasing pairing of equal lines), and no other number is |
| Alignments.TrimPrefix | apps/forge-yaml-workbench/src/format-diff.js:10-11 | a common prefix of length p adds exactly p to the longest common subsequence of the rests |
| Alignments.TrimSuffix | apps/forge-yaml-workbench/src/format-diff.js:13-15 | a common suffix of length s adds exactly s |
| LineDiff.FillMatrix | apps/forge-yaml-workbench/src/format-diff.js:59-68 | every cell of the table equals the longest common subsequence of the two suffixes; allocated fresh, 32 bits suffice under the cell limit |
| LineDiff.FillMatrixRow | apps/forge-yaml-workbench/src/format-diff.js:63-67 | the inner loop fills one row from the one below it and leaves every other row alone |
| LineDiff.WalkMatrix | apps/forge-yaml-workbench/src/format-diff.js:70-103 | the greedy walk terminates with in-range indices and emits the specified rows |
| LineDiff.TraceRewrites | apps/forge-yaml-workbench/src/format-diff.js:70-103 | the walk's rows show both texts line by line under their own numbers, and keep exactly a longest common subsequence |
| LineDiff.TraceIsFirst | apps/forge-yaml-workbench/src/format-diff.js:74-102 | among all rows that keep as many lines, the walk's come first in the order context, removed, added: the tie-breaking is determined |
| LineDiff.ContextBound | apps/forge-yaml-workbench/src/format-diff.js:70-103 | no rows that show both texts can keep more lines than the longest common subsequence |
| LineDiff.PrefixLength | apps/forge-yaml-workbench/src/format-diff.js:10-11 | the first loop finds the common prefix |
| LineDiff.SuffixLength | apps/forge-yaml-workbench/src/format-diff.js:13-15 | the second loop finds the common suffix of what the prefix leaves |
| LineDiff.EndsMaximal | apps/forge-yaml-workbench/src/format-diff.js:10-15 | neither end can be lengthened, and exchanging the texts gives the same ends |
| LineDiff.ReplacementRows | apps/forge-yaml-workbench/src/format-diff.js:9-34 | the approximation returns the rows that keep the two ends and replace the middles |
| LineDiff.ReplacementRewrites | apps/forge-yaml-workbench/src/format-diff.js:9-34 | those rows show both texts, and fall short of the longest common subsequence by exactly that of the middles |
| FormatDiff.BuildLineDiff | apps/forge-yaml-workbench/src/format-diff.js:36-112 | rows, counts, the simplified flag and both metadata fields, on either side of the cell limit |
| FormatDiff.DiffIsFaithful | apps/forge-yaml-workbench/src/format-diff.js:36-112 | on either path dropping the added rows leaves the before lines numbered from 1, dropping the removed rows the after lines, in at most n + m rows |
| FormatDiff.ExactDiffIsMinimal | apps/forge-yaml-workbench/src/format-diff.js:59-103 | below the limit no faithful rows add or remove fewer lines, and the rows are the first of the minimal ones |
| FormatDiff.SimplifiedDiffExcess | apps/forge-yaml-workbench/src/format-diff.js:48-57 | above the limit each count exceeds the minimum by the longest common subsequence of the middles, so the result is minimal exactly when the middles share no line |
| FormatDiff.SwapInputs | apps/forge-yaml-workbench/src/format-diff.js:36-112 | exchanging the texts exchanges added with removed on either path |
| FormatDiff.SwapDoesNotReverseRows | apps/forge-yaml-workbench/src/format-diff.js:84-102 | a pair of texts at which exchanging them does not mirror the rows: a tie is broken differently each way |
| DiffMirror.TraceMirrorsIff | apps/forge-yaml-workbench/src/format-diff.js:70-103 | the walk with the texts exchanged gives the mirrored rows exactly when it comes to no pair of unequal lines of which either may be dropped at no loss |
| DiffMirror.NoTieMeansOneBest | apps/forge-yaml-workbench/src/format-diff.js:70-103 | no tie is met exactly when only one rewriting keeps as many lines and keeps equal lines as soon as it comes to them: the walk's |
| DiffMirror.ReplacementMirrorsIff | apps/forge-yaml-workbench/src/format-diff.js:9-34 | the approximation's rows mirror exactly when one of the middles is empty |
| DiffMirror.SwapMirrorsRowsIff | apps/forge-yaml-workbench/src/format-diff.js:36-112 | exchanging the texts mirrors the rows of the result exactly then, on either path |
| FormatDiff.NoChangesIff | apps/forge-yaml-workbench/src/format-diff.js:51-55 | nothing is added or removed exactly when the line sequences are equal |
| FormatDiff.NewlineChangeIsNormalIff | apps/forge-yaml-workbench/src/format-diff.js:41-46 | what is reported of the final newline is true of the normalized texts exactly when both texts or neither end in a carriage return |
| FormatDiff.NewlineReportedYetEqual | apps/forge-yaml-workbench/src/format-diff.js:41-46 | a pair of texts that are equal once normalized, with a final newline reported as added |
| FormatDiff.NothingReported | apps/forge-yaml-workbench/src/format-diff.js:41-43 | for diffs without added, removed or final-newline change: the normalized texts are equal exactly then |
| FormatDiff.NothingReportedYetDifferent | apps/forge-yaml-workbench/src/format-diff.js:41-46 | the failing family is not empty: two texts that differ after normalization although nothing at all is reported |
| FormatDiff.SilenceMeansEqual | apps/forge-yaml-workbench/src/format-diff.js:36-112 | a diff that reports nothing, line endings included, means equal raw texts whenever one of them holds no carriage return |
| FormatDiff.SilentLineEndings | apps/forge-yaml-workbench/src/format-diff.js:45 | two texts with different line endings, both with a carriage return, between which nothing is reported |
| Session.StepKeepsValid | apps/forgeops-console/internal/session/state.go:57-185 | every operation keeps the session invariant, and changes the scope only by moving to the next generation |
| Session.RunKeepsValid | apps/forgeops-console/internal/session/state.go:57-185 | over every sequence of calls generations never decrease, one generation keeps one scope, and a closed session never changes |
| Session.AdmissionAndCancellation | apps/forgeops-console/internal/session/state.go:117-141 | from a fresh session: a request is admitted exactly at the current generation of an open session, and a scope context is cancelled exactly when its generation is past |
| Session.CloseIsFinal | apps/forgeops-console/internal/session/state.go:170-185 | Close is idempotent, cancels every scope context, and nothing done after it admits a request or changes anything |
| SessionMeaning.SelectContextMeans | apps/forgeops-console/internal/session/state.go:57-71 | a context is selected exactly in an open session for an allowed name; the returned and the current scope then name it, without a namespace, and nothing is allowed yet; otherwise nothing changes and the error says why |
| SessionMeaning.SelectNamespaceMeans | apps/forgeops-console/internal/session/state.go:105-115 | a namespace is selected exactly in an open session from the current listing; context and listing stay |
| SessionMeaning.SelectNamespaceAtMeans | apps/forgeops-console/internal/session/state.go:96-103 | at the current generation this is selecting a namespace, at any other a refusal without effect |
| SessionMeaning.AllowNamespacesMeans | apps/forgeops-console/internal/session/state.go:73-87 | a listing is taken exactly for the current scope of an open session with a context; what may be chosen is then exactly its non-empty names |
| SessionMeaning.CloseMeans | apps/forgeops-console/internal/session/state.go:172-185 | Close ends an open session in a scope without context and namespace, under a new generation |
| SessionMeaning.ContextIsLastSelected | apps/forgeops-console/internal/session/state.go:57-71 | after every sequence of calls that leaves the session open, its context is the name given to the last accepted selection |
| SessionMeaning.NamespaceIsLastSelected | apps/forgeops-console/internal/session/state.go:89-115 | its namespace is the name given to the last accepted namespace selection since then, and empty without one |
| SessionMeaning.AllowedIsLastListed | apps/forgeops-console/internal/session/state.go:73-87 | what may be chosen is exactly the last accepted listing since then, without its empty names, replaced and not merged |
| SessionMeaning.GenerationCountsSelections | apps/forgeops-console/internal/session/state.go:117-123 | its generation counts the accepted selections |
| SessionMeaning.ClosedWhenCalled | apps/forgeops-console/internal/session/state.go:172-185 | a session is closed exactly when Close has been called |
| SessionState.State.constructor | apps/forgeops-console/internal/session/state.go:49 | a new state is the initial session |
| SessionState.State.New | apps/forgeops-console/internal/session/state.go:35-50 | refuses exactly an empty list, an empty name or a repeated name |
| SessionState.State.AdvanceLocked | apps/forgeops-console/internal/session/state.go:117-123 | cancels the previous scope context, moves to the next generation and opens a new context |
| SessionState.State.SelectContext | apps/forgeops-console/internal/session/state.go:57-71 | succeeds exactly in an open session for an allowed name, which the returned and current scope then carry without a namespace and with nothing allowed; state and errors are those of the specification |
| SessionState.State.AllowNamespaces | apps/forgeops-console/internal/session/state.go:73-87 | takes the listing exactly at the current generation of an open session with a context, and then allows exactly its non-empty names |
| SessionState.State.SelectNamespace | apps/forgeops-console/internal/session/state.go:89-93 | new state and result are those of the specification, errors included |
| SessionState.State.SelectNamespaceAt | apps/forgeops-console/internal/session/state.go:95-103 | succeeds exactly at the current generation, in an open session, for an allowed name, which the scope then carries in the same context; a stale generation is refused first |
| SessionState.State.SelectNamespaceLocked | apps/forgeops-console/internal/session/state.go:105-115 | succeeds exactly in an open session for an allowed name, which the scope then carries in the same context under the next generation |
| SessionState.State.RequestContext | apps/forgeops-console/internal/session/state.go:125-141 | a granted request carries the current scope and watches the scope context of its own generation, not yet cancelled |
| SessionState.State.Close | apps/forgeops-console/internal/session/state.go:170-185 | closes, cancels and clears, once |
| ConsoleSafety.ResultScopeWasCurrent | apps/forgeops-console/internal/resources/service.go:124-184 | in every interleaving a returned result carries the scope that was current, in an open session, at every state from admission to the recheck |
| ConsoleSafety.GenerationNamesScope | apps/forgeops-console/internal/session/state.go:57-123 | along every run generations never decrease, and equal generations mean equal scopes |
| ConsoleSafety.NamespaceProvenance | apps/forgeops-console/internal/resources/service.go:275-284 | a selected namespace stands in a listing accepted for its own context, at a generation no older than that context's latest selection |
| ConsoleSafety.SlotsBoundedAndReturned | apps/forgeops-console/internal/diagnostics/service.go:142-149 | slots in use are counted exactly, never exceed 4 and 2, and all are free when every request has returned |
| ConsoleSafety.WaitingForSlot | apps/forgeops-console/internal/diagnostics/service.go:142-149 | a waiting request may take a slot exactly while fewer than 4, or 2, are taken; a diagnostics request is turned away as busy exactly when both are |
| ConsoleSafety.OneEntryEach | apps/forgeops-console/internal/diagnostics/service.go:119-138 | each diagnostics request that returned logged exactly one entry, each resource request at most one, none only when refused for want of a namespace; the entry names service and scope and says exactly what came of it |
| ConsoleSafety.NeverStuck | apps/forgeops-console/internal/diagnostics/service.go:118-183 | in every state of every run each request that has not returned has a step it can take, whatever the others do |
| ConsoleSafety.EveryStepAdvances | apps/forgeops-console/internal/diagnostics/service.go:118-183 | every step of a request brings it nearer to its end, seven steps at most |
| ConsoleSafety.RecheckDecides | apps/forgeops-console/internal/resources/service.go:158-160 | the recheck lets a request pass exactly in the generation of its scope, and otherwise stops it as stale |
| ConsoleSafety.RefusedListing | apps/forgeops-console/internal/resources/service.go:275-284 | a namespace list is taken over exactly at the current generation of an open session, and otherwise stops its request as stale, without effect |
| ConsoleSafety.ServicesAgree | apps/forgeops-console/internal/diagnostics/service.go:324-345 | the two services report a fault alike except a cancellation, an over-long response and a coded error, and how they report those |
| ConsoleSafety.HistoryIsNumbered | apps/forgeops-console/internal/resources/service.go:212-221 | the full history is numbered from one without gaps |
| ConsoleSafety.StepRecords | apps/forgeops-console/internal/resources/service.go:212-221 | every step of a run leaves the history alone or records one entry as the buffer does |
| ConsoleSafety.ActivityShowsLatest | apps/forgeops-console/internal/resources/service.go:212-230 | at every state of a run the buffer shows the last min(100, N) of the entries logged so far, under consecutive numbers ending at N |
| ConsoleSafety.ClosedForGood | apps/forgeops-console/internal/session/state.go:170-185 | in every run, after the session is closed it never changes and no request is admitted |
| ActivityLog.ActivityBuffer.Record | apps/forgeops-console/internal/resources/service.go:212-221 | appends one numbered entry; the buffer stays the end of the full history |
| ActivityLog.ActivityBuffer.Activity | apps/forgeops-console/internal/resources/service.go:226-230 | returns the last min(100, N) entries of the full history |
| ActivityLog.LatestIsConsecutive | apps/forgeops-console/internal/resources/service.go:212-221 | what is kept carries consecutive numbers that end at the last one given out |
| ResourceLists.SelectedPods | apps/forgeops-console/internal/resources/service.go:421-436 | the matching Pods in order, cut one above the limit, none for an unusable selector |
| ResourceLists.ProjectService | apps/forgeops-console/internal/resources/service.go:454-479 | the selected Pods, then the routing slices, cut one above the limit |
| ResourceLists.ProjectEndpointSlice | apps/forgeops-console/internal/resources/service.go:496-519 | the served Service and the usable targets of the first 200 endpoints, and whether there were more |
| ResourceLists.SortByName | apps/forgeops-console/internal/resources/service.go:248 | the in-place sort leaves a name-sorted permutation |
| ResourceLists.Trim | apps/forgeops-console/internal/resources/service.go:241-253 | clips every record's references, sorts and cuts the list, and raises the flag exactly for a reason |
| ResourceLists.CappedRecords | apps/forgeops-console/internal/resources/service.go:431-433 | capping references one above the limit changes nothing that trim returns |
| ResourceLists.TruncationIsHonest | apps/forgeops-console/internal/resources/service.go:241-253 | a list not flagged is a name-sorted permutation of everything fetched with every reference; it is flagged only for a reason, and always within the limits |
| ListMeaning.SelectedMeans | apps/forgeops-console/internal/resources/service.go:421-436 | the references to Pods are one for each matching Pod, in the order of the list, and none without a usable selector |
| ListMeaning.RoutingMeans | apps/forgeops-console/internal/resources/service.go:468-472 | the references to slices are one for each slice that names the Service, in order |
| ListMeaning.TargetsMean | apps/forgeops-console/internal/resources/service.go:500-518 | a slice's references to Pods are one for each endpoint that references one, in order |
| ListMeaning.ServedFirst | apps/forgeops-console/internal/resources/service.go:498-500 | a slice's record leads with the Service it is labelled for, if any, and goes on with the targets of its first 200 endpoints |
| ResourceLists.ListWorkloads | apps/forgeops-console/internal/resources/service.go:306-333 | Deployments and ReplicaSets: what is returned is a trimming of the uncapped records |
| ResourceLists.ListServices | apps/forgeops-console/internal/resources/service.go:334-351 | the same for Services with their Pods and slices |
| ResourceLists.ListEndpointSlices | apps/forgeops-console/internal/resources/service.go:352-364 | the same for slices, whose own clipping raises the flag |
| ResourceLists.UnflaggedSlicesAreWhole | apps/forgeops-console/internal/resources/service.go:357-364 | unflagged slices show every one of their targets |
| ResourceLists.ListNames | apps/forgeops-console/internal/resources/service.go:266-305 | the lists without references |
| Utf8.DecodeEncode | apps/forgeops-console/internal/diagnostics/service.go:291-301 | decoding an encoded scalar value, whatever follows it, gives it back (section 3 of RFC 3629) |
| Utf8.EncodeOfRunes | apps/forgeops-console/internal/diagnostics/service.go:291-301 | re-encoding the decoded runes gives the bytes back exactly for valid UTF-8 |
| Utf8.DecodeAcceptsEncodings | apps/forgeops-console/internal/diagnostics/service.go:291 | the decoder accepts nothing but encodings of scalar values: no overlong form, no surrogate, nothing beyond the last |
| Utf8.InvalidByte | apps/forgeops-console/internal/diagnostics/service.go:291 | bytes that start with no encoding give one U+FFFD that takes one byte |
| SafeText.SafeTextBounded | apps/forgeops-console/internal/diagnostics/service.go:285-303 | the loop computes the specified text and clip flag for every byte sequence, valid UTF-8 or not |
| SafeText.OutputIsSafe | apps/forgeops-console/internal/diagnostics/service.go:279-303 | the output is valid UTF-8, within the limit, and holds no rune but newline, tab, 0x20 to 0x7E and those from 0xA0 on that are not format controls |
| SafeText.KeepsTheFront | apps/forgeops-console/internal/diagnostics/service.go:285-303 | the runes kept are the longest fitting front part of the first limit bytes' runes, each that is neither showable nor a newline or tab replaced by U+FFFD |
| SafeText.UnchangedIffSafe | apps/forgeops-console/internal/diagnostics/service.go:279-303 | text is returned unchanged exactly when it already is all that |
| SafeText.SanitisingTwice | apps/forgeops-console/internal/diagnostics/service.go:279-303 | the output is a fixed point, not reported as clipped |
| SafeText.UnclippedIsWhole | apps/forgeops-console/internal/diagnostics/service.go:286-302 | not clipped exactly when the input fits and the output is its rune-by-rune replacement |
| SafeText.CutLines | apps/forgeops-console/internal/diagnostics/service.go:233-244 | cuts after the 500th newline, and only if there is one |
| SafeText.ReadLogs | apps/forgeops-console/internal/diagnostics/service.go:228-246 | log text is the longest fitting, sanitised front part of the first 500 lines of the first 65,536 bytes; not flagged exactly when nothing was cut or clipped |
| ShellPreview.PreviewReadsBack | apps/forgeops-console/internal/diagnostics/service.go:316-321 | a POSIX shell reads the line back as kubectl and the original arguments, whatever quotes they hold |
| ShellPreview.GuardMeans | apps/forgeops-console/internal/diagnostics/service.go:306 | the guard passes exactly the context names of at most 253 bytes of valid UTF-8 without a control or format character |
| ShellPreview.Preview | apps/forgeops-console/internal/diagnostics/service.go:305-321 | a line is built exactly for printable context names, and reads back as kubectl with exactly its arguments |
| PreviewMeaning.ArgumentsTell | apps/forgeops-console/internal/diagnostics/service.go:309-315 | each option is given once, with the context, namespace, container, previous flag and bounds asked for, and the other words are kubectl, the command and the Pod |
| Evidence.OverallIsWorst | src/forgeops/models.py:59-75 | the overall status is the worst one present, and the exit code follows it |
| Evidence.SummaryMeans | src/forgeops/evidence.py:199-211 | the four counts of a summary are those of the statuses and leave none out |
| Evidence.ParseEvidence | src/forgeops/evidence.py:133-218 | accepts exactly the documents with unique identifiers, one timestamp, non-empty texts and a consistent summary |
| CanonicalOrder.CanonicalMeansInOrder | src/forgeops/runbooks.py:103-105 | comparing with the filtered list of allowed values and testing for duplicates accepts exactly the listings in that order |
| Lexicographic.SortUniqueFixedPoints | src/forgeops/comparison.py:270-271 | comparing with the sorted set accepts exactly the strictly ascending listings |
| EvidenceComparison.ChangedFieldsMean | src/forgeops/comparison.py:329-334 | the changed fields are in contract order, empty exactly when nothing differs, and hold status exactly when the status differs |
| EvidenceComparison.CompareEvidence | src/forgeops/comparison.py:337-400 | refuses reversed chronology, and otherwise returns the specified comparison |
| EvidenceComparison.CompareDeltas | src/forgeops/comparison.py:359-389 | the deltas are ascending, each is the right one for its identifier, and every identifier that differs has one |
| EvidenceComparison.ReportedWhenDifferent | src/forgeops/comparison.py:337-389 | an identifier has a delta exactly when it is in one snapshot only, or its two checks differ in more than their times |
| EvidenceComparison.ChangedFieldsAre | src/forgeops/comparison.py:329-334 | the changed fields are exactly those of the six components that differ, each under its own name |
| EvidenceComparison.DeltaFields | src/forgeops/comparison.py:359-389 | each kind of delta says exactly what became of the identifier, and carries exactly the changed fields |
| ComparisonContract.ParseComparison | src/forgeops/comparison.py:193-302 | accepts exactly the acceptable documents, and reads off the comparison |
| ComparisonContract.CheckDelta | src/forgeops/comparison.py:219-269 | the tests on one delta: identifier, field order and shape |
| ComparisonContract.CompareIsWellFormed | src/forgeops/comparison.py:337-400 | what is compared in order of time is accepted by the reader |
| ComparisonContract.CompareHeader | src/forgeops/comparison.py:391-400 | the comparison names the two times and the worst status of each snapshot, each in its own place |
| ComparisonContract.CompareMeans | src/forgeops/comparison.py:354-400 | counts every identifier once; one has a delta exactly when it is missing on a side or differs in a field |
| ComparisonContract.SummaryCounts | src/forgeops/comparison.py:443-447 | each count of a comparison's summary is the number of identifiers of which that is true in the two snapshots, and the exit code is 0 exactly when there are none |
| Runbooks.ParseCatalog | src/forgeops/runbooks.py:142-193 | accepts exactly the catalogs whose entries are acceptable and ascending |
| Runbooks.CheckEntry | src/forgeops/runbooks.py:153-190 | accepts exactly the entries with well-formed signals, unique and sorted by mode and check id |
| Runbooks.CheckSignal | src/forgeops/runbooks.py:162-181 | the tests on one selector |
| Runbooks.KeyOrder | src/forgeops/runbooks.py:180-183 | signal keys are ordered by mode, then check id, and equal only for equal pairs |
| Runbooks.RunbookPathStaysInside | src/forgeops/runbooks.py:109-119 | an accepted path, walked from the repository root, ends at a Markdown file below docs/runbooks |
| Runbooks.RunbookPathMeans | src/forgeops/runbooks.py:108-118 | a path is accepted exactly when it is relative, never goes up, and leads to a Markdown file below docs/runbooks |
| Runbooks.SegmentsMean | src/forgeops/runbooks.py:110 | the segments of a path hold no slash and, joined by slashes, are the path |
| RunbookMapping.CollectReasons | src/forgeops/runbook_mapping.py:273-283 | the deltas that a section selects, in order |
| RunbookMapping.ReasonsMean | src/forgeops/runbook_mapping.py:259-283 | a section's reasons are exactly the deltas that one of its selectors accepts |
| RunbookMapping.MapRunbooks | src/forgeops/runbook_mapping.py:286-311 | the loops compute the specified mapping |
| RunbookMapping.MatchesMean | src/forgeops/runbook_mapping.py:294-301 | the matches are exactly the sections with a reason, each with all of them |
| RunbookMapping.MappedWhenSelected | src/forgeops/runbook_mapping.py:292-304 | a delta counts as mapped exactly when some section of the catalog selects it |
| RunbookMapping.MappingPartitions | src/forgeops/runbook_mapping.py:292-311 | mapped and unmapped identifiers partition the deltas, and the counts add up |
| MappingMeaning.MappingMatches | src/forgeops/runbook_mapping.py:259-303 | the matches are exactly the sections with a reason, each with its own data and, in order, every check, kind and status that occurred and that a selector of it covers: exact by identifier, prefix by its beginning |
| MappingMeaning.ReasonMeans | src/forgeops/runbook_mapping.py:259-283 | a section lists a check, a kind and a status exactly when some delta has them and some selector of the section covers them |
| MappingMeaning.UnmappedMeans | src/forgeops/runbook_mapping.py:304-311 | an identifier is unmapped exactly when its check is gone or no section covers it; a removal always is |
| MappingMeaning.PrefixEndsAtDot | src/forgeops/runbook_mapping.py:259-265 | an accepted prefix selector covers whole families of identifiers: what it names ends at a dot |
| MappingMeaning.MappingExitMeans | src/forgeops/runbook_mapping.py:61-63 | the exit code of a mapping is 0 exactly when every delta has a status and some section covers it |
| MappingMeaning.NodeReadinessSelects | docs/reference/forgeops-runbook-catalog.json:23-30 | the catalog's prefix selector for nodes covers a node that has begun to fail, as an exact one would not |
| MappingContract.ParseMapping | src/forgeops/runbook_mapping.py:159-240 | accepts exactly the acceptable documents, and reads off the mapping |
| MappingContract.CheckMatch | src/forgeops/runbook_mapping.py:176-210 | the tests on one match and its reasons |
| MappingContract.ReadRenderedMapping | src/forgeops/runbook_mapping.py:338-374 | a rendered mapping is accepted exactly when it is valid, and read back unchanged |
| MappingContract.RenderReadMapping | src/forgeops/runbook_mapping.py:139-240 | an accepted document is the one rendering of what was read from it |
| MappingContract.MapIsValid | src/forgeops/runbook_mapping.py:286-311 | the mapper's output is accepted by its reader for every accepted catalog |
| Incident.UncertaintiesMean | src/forgeops/incident.py:388-394 | which uncertainties are disclosed, each once and in order |
| Incident.ValidateMappingLinkage | src/forgeops/incident.py:342-378 | accepts exactly mappings of the same window whose reasons agree with the deltas and whose coverage is complete |
| Incident.BuildIncidentBrief | src/forgeops/incident.py:380-411 | refuses what is not linked, and otherwise builds the specified brief |
| Incident.AlikeStates | src/forgeops/incident.py:260-282 | the state depends on the facts alone, so the reader's reconstructed deltas classify like the original ones |
| Incident.MapIsLinked | src/forgeops/incident.py:342-378 | the mapper's own output always passes the linkage test |
| IncidentContract.ParseBrief | src/forgeops/incident.py:166-297 | accepts exactly the valid briefs under the right schemas |
| IncidentContract.CheckFacts | src/forgeops/incident.py:188-210 | the tests on the facts |
| IncidentContract.CheckRunbook | src/forgeops/incident.py:220-251 | the tests on one runbook reference, each reason against the fact it names |
| IncidentContract.CheckConclusions | src/forgeops/incident.py:280-291 | state and uncertainties have to be those that the facts give |
| IncidentContract.BuiltBriefIsValid | src/forgeops/incident.py:380-411 | for any accepted comparison and mapping that belong together the brief is accepted |
| SnapshotContext.ContextOfMeans | src/forgeops/incident_context.py:263-267 | a context holds exactly the snapshot's identifiers and statuses, ascending |
| SnapshotContext.SummariesAgree | src/forgeops/incident_context.py:62-77 | the context's exit code, computed from the overall status, agrees with the evidence summary |
| SnapshotContext.ParseContext | src/forgeops/incident_context.py:166-182 | accepts exactly non-empty, ascending, named checks with the right summary |
| SnapshotContext.CoverageMeans | src/forgeops/incident_context.py:86-95 | added and removed identifiers are exactly those of one snapshot only |
| SnapshotContext.AssessmentMeans | src/forgeops/incident_context.py:97-121 | recovered, regained and remaining identifiers, by their statuses in the two snapshots, each list ascending |
| SnapshotContext.RecoveryMeans | src/forgeops/incident_context.py:110-115 | no recovery is claimed exactly when nothing recovered, complete recovery exactly when something did, the check sets are equal and all pass |
| SnapshotBriefs.ValidateContextLinkage | src/forgeops/incident_context.py:185-210 | accepts exactly facts that match both snapshots and omit no change |
| SnapshotBriefs.ParseSnapshotBrief | src/forgeops/incident_context.py:227-240 | accepts exactly the acceptable documents, and reads off the brief |
| SnapshotBriefs.RenderReadSnapshotBrief | src/forgeops/incident_context.py:213-240 | an accepted document is the one rendering of what was read from it |
| SnapshotBriefs.BuildSnapshotIncidentBrief | src/forgeops/incident_context.py:257-270 | refuses exactly what does not belong together; the builder's own strict re-read never fails and changes nothing |
| SnapshotBriefs.BuiltSnapshotBriefIsValid | src/forgeops/incident_context.py:257-270 | whatever belongs together builds a brief that the strict reader accepts |
| BriefMeaning.AcceptedFactsArePatch | src/forgeops/incident_context.py:185-211 | applied to the before statuses the facts of any accepted document give exactly the after statuses, and undone they lead back |
| BriefMeaning.StateOfFacts | src/forgeops/incident.py:316-339 | each state of the window by the kinds and statuses of the facts: INCOMPLETE, DEGRADED, RECOVERED and STABLE exactly when they say so |
| BriefMeaning.IncompleteMeans | src/forgeops/incident.py:321-325 | an accepted brief is INCOMPLETE exactly when a check is gone, or a listed one is UNKNOWN afterwards |
| BriefMeaning.DegradedMeans | src/forgeops/incident.py:326-330 | it is DEGRADED exactly when it is not INCOMPLETE and a listed check warns or fails afterwards |
| BriefMeaning.RecoveredMeans | src/forgeops/incident.py:331-338 | it is RECOVERED exactly when every listed check, and there is one, did not pass before and passes afterwards |
| BriefMeaning.OneCheckForces | src/forgeops/incident.py:316-339 | one check that is gone or newly UNKNOWN forces INCOMPLETE, one that newly warns or fails DEGRADED or INCOMPLETE |
| BriefMeaning.NoSilentWorsening | src/forgeops/incident_context.py:62-68 | a strictly worse overall status forces DEGRADED or INCOMPLETE |
| BriefMeaning.StableMeansEqual | src/forgeops/incident.py:319-320 | STABLE implies equal statuses and no claimed recovery |
| BriefMeaning.CompleteRecoveryMeans | src/forgeops/incident_context.py:110-115 | complete recovery implies an overall PASS, equal check sets, and RECOVERED or CHANGED |
| Pipeline.Run | src/forgeops/incident_context.py:257-270 | from documents to the final brief: succeeds exactly when all three inputs are acceptable and in order of time |
| Pipeline.StagesAgree | src/forgeops/incident_context.py:257-270 | every stage accepts what the stage before it wrote and reads it unchanged |
| Evaluation.CheckVersion | src/forgeops/evaluate.py:43-54 | PASS exactly when both versions are there, UNKNOWN otherwise |
| Evaluation.CheckNode | src/forgeops/evaluate.py:67-96 | by the one Ready condition of the one node of that name |
| Evaluation.CheckDeployment | src/forgeops/evaluate.py:98-142 | UNKNOWN exactly when identity, counts or generations are not conclusive, PASS exactly when all counts and the image match |
| Evaluation.CheckPod | src/forgeops/evaluate.py:177-265 | UNKNOWN, WARN and PASS exactly when the Pod's evidence is incomplete, it restarted, or it runs as configured |
| Evaluation.AddContainers | src/forgeops/evaluate.py:239-240 | all containers ready, and whether any has restarted |
| Evaluation.MatchImages | src/forgeops/evaluate.py:241-248 | the configured image and, when it is pinned, the digest |
| Verdict.CheckIdentities | src/forgeops/evaluate.py:155-163 | the identity test, and whether distinct identities could be counted at all |
| Verdict.CheckPods | src/forgeops/evaluate.py:144-265 | one workload's checks: the count first, then every Pod by name; raises exactly on an identity that cannot be counted |
| StableSort.SortByInOrder | src/forgeops/evaluate.py:177 | sorting by a string key leaves no key less than an earlier one |
| StableSort.SortByKeepsGroups | src/forgeops/evaluate.py:177 | and keeps the elements under every key, in their order: a stable permutation |
| Verdict.CheckRouting | src/forgeops/evaluate.py:267-300 | UNKNOWN exactly on malformed slices, PASS exactly when as many endpoints as expected say true and none says false or nothing; what else one may say is not counted |
| Verdict.CheckMetrics | src/forgeops/evaluate.py:302-326 | by the one Available condition |
| Verdict.CheckHttp | src/forgeops/evaluate.py:328-359 | PASS exactly on status 200 and every expected field, with Python's equality |
| Verdict.Evaluate | src/forgeops/evaluate.py:24-361 | reports exactly the specified checks in order, or raises exactly on an uncountable Pod identity under a matching context, limits of the interpreter aside |
| VerdictMeaning.ExitCodes | src/forgeops/models.py:59-65 | exit code 0 exactly when everything in scope is healthy, 2 exactly when some evidence settles nothing, for every snapshot and scope |
| VerdictMeaning.PodChecksMean | src/forgeops/evaluate.py:144-265 | a workload's checks all pass exactly when the right number of identified Pods run as configured without restarts |
| VerdictMeaning.RoutesMean | src/forgeops/evaluate.py:267-300 | the routing checks pass exactly when every service in scope routes as it should, in whatever order they are listed |
| VerdictMeaning.RoutingPassMeans | src/forgeops/evaluate.py:291-294 | when routing passes, all endpoints are ready exactly when each declares its readiness as a boolean or not at all, and exactly when there are as many as expected |
| VerdictMeaning.OddReadinessPasses | src/forgeops/evaluate.py:291-294 | routing passes with an endpoint whose readiness is a text |
| VerdictMeaning.ErrorsAreUnclear | src/forgeops/evaluate.py:24-361 | any errored item among those consulted by name, or under http., leaves the verdict unclear |
| VerdictMeaning.SignalForgeErrors | src/forgeops/constants.py:25-78 | in SignalForge's own scope an error of any fixed item or any HTTP item forces exit code 2 |
| VerdictMeaning.HealthyWorkload | src/forgeops/evaluate.py:98-265 | a healthy verdict pins down each workload's Deployment, the number of its Pods, and that each runs as configured and never restarted |
| EvidenceReading.VersionCheckMeans | src/forgeops/evaluate.py:43-54 | the version check passes exactly when client and server both name a version |
| EvidenceReading.NodeCheckMeans | src/forgeops/evaluate.py:56-96 | a node passes, or fails, exactly when the one item of its name has one Ready condition, which says True, or False |
| EvidenceReading.DeploymentCheckMeans | src/forgeops/evaluate.py:98-142 | a Deployment is UNKNOWN, passes or fails by its names, counts, generations and images, key by key, absent counts being zero |
| EvidenceReading.PodCheckMeans | src/forgeops/evaluate.py:179-265 | a Pod is UNKNOWN exactly when incomplete, and otherwise fails, passes or warns by its phase, condition, containers, image and restarts, key by key |
| EvidenceReading.RoutingCheckMeans | src/forgeops/evaluate.py:267-300 | a Service is UNKNOWN exactly when a slice lists no endpoints, and passes exactly when as many endpoints as expected say ready and none is silent or says not |
| EvidenceReading.EndpointsOfParts | src/forgeops/evaluate.py:276-285 | the endpoints of several slices are those of each, one after the other |
| EvidenceReading.MetricsCheckMeans | src/forgeops/evaluate.py:302-326 | the metrics check passes, or fails, exactly when the one Available condition says True, or False |
| EvidenceReading.HttpCheckMeans | src/forgeops/evaluate.py:328-361 | an HTTP item is UNKNOWN exactly without a selected answer, and passes exactly when it is a 200 with every value expected of its kind of endpoint |
| EvidenceReading.FindMeans | src/forgeops/evaluate.py:25-28 | the evidence under an identifier is the last of that name, or nothing |
| EvidenceReading.TruthyMeans | src/forgeops/evaluate.py:48 | what counts as false |
| ImageDigests.AfterAtMeans | src/forgeops/evaluate.py:249 | the digest of an image is what follows its first at sign |
| ImageDigests.PinnedMatches | src/forgeops/evaluate.py:246-250 | a pinned image matches exactly when some container's imageID ends in its digest |
| ImageDigests.UnpinnedMatches | src/forgeops/evaluate.py:246-250 | an image without an at sign matches whatever runs |
| ImageDigests.PinnedPod | src/forgeops/evaluate.py:246-257 | a Pod of a pinned workload passes or warns only when it runs the digest, and fails when it does not, if its evidence is complete |
| ImageDigests.GrafanaPod | src/forgeops/constants.py:25-78 | so does the Grafana Pod of SignalForge's own scope, with its digest |
| ImageDigests.HealthyDigests | src/forgeops/evaluate.py:246-250 | a healthy verdict says that every Pod of a pinned workload runs its digest |
| ImageDigests.HealthyGrafana | src/forgeops/constants.py:25-78 | exit code 0 in SignalForge's scope says that its one Grafana Pod runs the one pinned digest |
| ReportIdentifiers.ReportParts | src/forgeops/evaluate.py:24-361 | the reported identifiers are, up to order, those of the fixed checks, the targets, the Pods listed and the HTTP items supplied |
| ReportIdentifiers.IdentifiersDistinctIff | src/forgeops/evaluate.py:24-361 | for distinct targets no identifier is reported twice exactly when the HTTP items, and the Pods listed in each namespace, have different names; no supplied name collides with a fixed one |
| ReportIdentifiers.NamelessPodsCollide | src/forgeops/evaluate.py:191-196 | two nameless Pods in one list are reported under one identifier |
| CheckTexts.NodeWritten | src/forgeops/evaluate.py:56-96 | a node's check has no empty text exactly when the item has a source and names its error, and an error category exactly when it is UNKNOWN |
| CheckTexts.DeploymentWritten | src/forgeops/evaluate.py:98-142 | the same of a Deployment's check, with its branches for unreadable and stale evidence |
| CheckTexts.PodWritten | src/forgeops/evaluate.py:177-265 | the same of a Pod's check, with its five branches |
| CheckTexts.ErrorsAreNamed | src/forgeops/evaluate.py:24-361 | what could not be collected is reported under its own category by the check over it |
| CheckTexts.WorkloadErrorsAreNamed | src/forgeops/evaluate.py:98-300 | the same of the checks of workloads and Services |
| CheckTexts.ConditionCategories | src/forgeops/evaluate.py:83-90 | a condition of unknown state is told from one of unexpected shape |
| CheckTexts.GenerationsApart | src/forgeops/evaluate.py:122-132 | a Deployment whose generations differ is stale when its status lags behind and inconsistent when it is ahead |
| ReportTexts.TextsWrittenIff | src/forgeops/evaluate.py:24-361 | every check has its text, with an error category exactly when it is UNKNOWN; no text is empty exactly when every item consulted has a source and names its error |
| EvaluatedEvidence.ReportIsAcceptedIff | src/forgeops/render.py:98-120 | what an evaluation writes is acceptable to the loader exactly when the context is the supported one, every item consulted has a source and names its error, and the names in the evidence differ |
| EvaluatedEvidence.Publish | src/forgeops/cli.py:404-411 | evaluating, writing and loading succeeds exactly then, and the loaded snapshot has the checks of the evaluation and its exit codes |
| EvaluatedEvidence.SignalForgeTargets | src/forgeops/constants.py:25-78 | SignalForge's own targets are distinct |
| EvaluatedEvidence.NamelessPods | src/forgeops/evaluate.py:191-196 | a snapshot with two nameless Pods is evaluated, and the result is refused by the loader |
| EvaluatedEvidence.UncountableName | src/forgeops/evaluate.py:154-167 | a snapshot with a Pod whose name is a list or an object: the evaluation does not return |
| YamlPaths.QuotedReadsBack | apps/forge-yaml-workbench/src/tree-search.js:8 | a key quoted as JSON, followed by anything, is read back exactly (section 7 of RFC 8259), lone surrogates included |
| YamlPaths.StepReadsBack | apps/forge-yaml-workbench/src/tree-search.js:3-9 | each kind of path step is read back from the front of a path |
| YamlPaths.PathReadsBack | apps/forge-yaml-workbench/src/tree-search.js:3-9 | a path determines the steps it was made of |
| TreeIndex.Visit | apps/forge-yaml-workbench/src/tree-search.js:14-33 | the recursive walk appends exactly the records of the node and everything below it |
| TreeIndex.BuildTreeSearchIndex | apps/forge-yaml-workbench/src/tree-search.js:11-37 | the index is the records of all documents, in order |
| TreeIdentity.NodesAreComplete | apps/forge-yaml-workbench/src/tree-search.js:27-32 | the walk visits exactly the nodes that steps from the root lead to |
| TreeIdentity.NodeIdIsInjective | apps/forge-yaml-workbench/src/tree-search.js:15 | an identifier determines its document and its node |
| TreeIdentity.IndexIsComplete | apps/forge-yaml-workbench/src/tree-search.js:11-37 | the index holds exactly the records of the documents' nodes |
| TreeIdentity.IdsAreUnique | apps/forge-yaml-workbench/src/tree-search.js:11-37 | no identifier occurs twice when document indices are distinct |
| TreeIdentity.AncestorIdsMean | apps/forge-yaml-workbench/src/tree-search.js:28 | ancestorIds are the identifiers of the proper ancestors, from the root down |
| TreeIdentity.AncestorsAreEarlier | apps/forge-yaml-workbench/src/tree-search.js:28-31 | every one of them belongs to an earlier record |
| TreeRecords.IndexDescribes | apps/forge-yaml-workbench/src/tree-search.js:14-32 | the index holds exactly one description of every node: its name (root, the key or the index in decimal), its path, its identifier, its value text exactly if it is a scalar, and its ancestors |
| TreeRecords.DescriptionIsUnique | apps/forge-yaml-workbench/src/tree-search.js:14-24 | a record is determined by its document, steps and value |
| TreeRecords.NodesInOrder | apps/forge-yaml-workbench/src/tree-search.js:27-32 | the walk lists a node before what lies below it, and an earlier child with all below it before a later one |
| TreeRecords.PathGoesOn | apps/forge-yaml-workbench/src/tree-search.js:1-9 | a path goes on with a dot and the key if that is a word, with the quoted key in brackets otherwise, and with the index in brackets |
| TreeRecords.PlainKeysStay | apps/forge-yaml-workbench/src/tree-search.js:8 | a quoted key keeps every character but quotes, backslashes, controls and halves of pairs |
| TreeRecords.OthersAreEscaped | apps/forge-yaml-workbench/src/tree-search.js:8 | those are written with a backslash, in two characters where a short form exists and otherwise as four lower-case hexadecimal digits |
| TreeRecords.SearchMeans | apps/forge-yaml-workbench/src/tree-search.js:39-46 | a search keeps a record exactly when the folded name, path or value text holds the folded query, which is not empty |
| TreeSearch.MatchingTextRanges | apps/forge-yaml-workbench/src/tree-search.js:48-65 | the splitter computes the specified ranges |
| TreeSearch.CollectRanges | apps/forge-yaml-workbench/src/tree-search.js:54-63 | the loop over matches and the gaps between them |
| TreeSearch.LeftmostIsLargest | apps/forge-yaml-workbench/src/tree-search.js:56-62 | no choice of non-overlapping occurrences is larger than a leftmost one |
| TreeSearch.EveryOccurrenceIsTouched | apps/forge-yaml-workbench/src/tree-search.js:56-62 | every occurrence begins inside a match |
| TreeSearchMeaning.RangesSpellSource | apps/forge-yaml-workbench/src/tree-search.js:48-65 | the ranges spell out the source, whatever case folding does to lengths |
| TreeSearchMeaning.MatchesAreOccurrences | apps/forge-yaml-workbench/src/tree-search.js:53-62 | match ranges stand at occurrences in the folded text and are as long as the query exactly when every occurrence found ends inside the source |
| TreeSearchMeaning.LengtheningBreaksIt | apps/forge-yaml-workbench/src/tree-search.js:53-62 | and fails for a concrete text under a folding that lengthens it: the match is cut short |
| HighlightedText.MatchesSpellQueryIff | apps/forge-yaml-workbench/src/tree-search.js:48-65 | every match range folds to the query exactly when every window of the source that the search stops at does |
| HighlightedText.EveryQuerySpellsIff | apps/forge-yaml-workbench/src/tree-search.js:48-65 | for one source, that holds of all queries exactly when folding and cutting commute on every window that a search for its own folded text stops at |
| HighlightedText.InPlaceSpells | apps/forge-yaml-workbench/src/tree-search.js:48-65 | it holds whenever folding keeps the length and treats every stretch of the source as it would alone |
| HighlightedText.InPlaceMatchesAreMost | apps/forge-yaml-workbench/src/tree-search.js:53-62 | the matches then are a largest choice of non-overlapping windows of the source that fold to the query |
| HighlightedText.UnitwiseFoldsInPlace | apps/forge-yaml-workbench/src/tree-search.js:53-62 | folding unit by unit is in place on every source |
| HighlightedText.ShiftedMatch | apps/forge-yaml-workbench/src/tree-search.js:53-62 | a folding that moves what follows: another letter is highlighted, in full and inside the source |
| HighlightedText.FinalSigma | apps/forge-yaml-workbench/src/tree-search.js:53-62 | a folding that keeps the length but looks at the context: another letter is highlighted, and a window that folds to the query is not |
| TreeSearchMeaning.KeptWhenHighlighted | apps/forge-yaml-workbench/src/tree-search.js:39-46 | a record is kept by the filter exactly when some text of it gets a match range |

## Left out

- JSON text and bytes: documents are typed trees, so duplicate keys, field order, encodings, malformed JSON and the distinction of integers from floats and booleans in summaries are outside the readers.
- Size limits of documents (256 KiB, 1 MiB, the response limit) and the error codes of the readers; a refusal is one value.
- Timestamps are integers: the equality of their texts and the order of their times are one relation here.
- Fixed disclosure texts (scope, redaction, limitations) are reduced to matching or not.
- Path suffixes follow Python 3.11 to 3.13, where a name of leading dots still has a suffix.
- EvaluatedEvidence.Publish: the texts of checks are functions of the evidence beside the loops that decide the statuses; how Python writes a value that is not a text (its str) is a parameter that is never empty.
- Verdict.Evaluate: limits of the interpreter, such as the number of digits that an integer may have when it is written as text and the depth of recursion, which also raise.
- ConsoleSafety.ResultScopeWasCurrent: a request that panics, HTTP status codes and cancelled parents enter only as faults chosen by the environment, and that a step which is possible is ever taken is not promised.
- ResourceLists.Trim: the order of records with equal names is left open, as the sort in use leaves it open.
- Labels, conditions, owners and display fields of resource records, and the parsing of selectors, which are given as predicates.
- SafeText.SafeTextBounded: which runes are format controls is a parameter; the code takes it from the Unicode table of category Cf.
- SafeText.ReadLogs: the stream and its cancellation; the bytes delivered are an input.
- The event list of the diagnostics service and its query validation; the PowerShell line and the note of a preview.
- The differ's texts are sequences of Unicode scalar values; lone surrogates, which only pass through, are not represented there.
- HighlightedText.InPlaceSpells: which texts the language's own case folding treats in place is not stated; folding is a parameter.
- Goroutines that forward cancellation: a request may observe the end of its scope at any step.
- Generations are natural numbers, so the wrap-around of 64-bit counters is not modelled.
- DNS name validation, TLS, the Kubernetes client, HTTP handlers, all user interfaces, schema validation, report rendering, collection of evidence and file access.
