# Verification of the tools-mcp core

The tools-mcp server answers tool calls over JSON-RPC. Much of its code is a fast
or incremental form of something simple: a cache of directory walks that is
validated instead of rebuilt, an edit made in bytes instead of in text, an index
that is updated instead of recomputed, a reader fed by arbitrary pieces of a
stream, a loop that runs many requests at once, a file search that walks and
matches less than everything. This project models seven such parts and proves
that each fast form agrees with its simple one, or states exactly when it does.

Run `dafny verify dfyconfig.toml` in this directory.

## The parts

**Scope cache** (`FileTree`, `PathOrder`, `IgnoreFingerprint`, `ScopeWalk`,
`ScopeLaws`, `ScopeHistory`, `ScopeStaleness`, `ScopeRaces`, `ScopeCache`). A file
tree with coarse timestamps is changed by writers the cache does not control. The walk
is a recursive function, and it is shown which nodes it lists; the cache is a class. A
lookup fails only when it needs a walk and the walk fails. One that finds the cached
snapshot valid serves exactly the entries of a fresh walk, skipping probes under
trusted directories changes no answer, every served snapshot was walked fewer than an
interval of lookups ago, and the cache is a size-bounded LRU. The snapshot must have
been settled when it was built, and that condition is exact, with and without ignore
rules and at every depth bound: every directory whose listing the walk read, and where
change markers are trusted every control with text that governs an existing path, was
last written in an earlier granule than that of the build. The program asks for old
stamps only where it skips probes. It validates younger ones too, so a file made, or a
control rewritten, in the granule of the build can go unseen until the next full walk,
although the comment at scope_cache.rs:1849 has content changes of a present control
always detected. Streaming validation of a fingerprint gives the answer of comparing
with a rebuilt one, hidden rewrites left out, and it is shown exactly when that makes
a difference.

**Newline-aware edit** (`Utf8`, `Utf8Laws`, `FileModel`, `FileLoading`,
`FileNewlines`, `SnippetEdit`, `SnippetApply`, `SnippetHints`, `SnippetFile`,
`SnippetCommutes`, `SnippetSeams`). A file is shown as LF-only text with a table of
offsets. The table is exact, every match of a valid snippet maps to bytes, and the
edit takes the first occurrence within the lines a hint names, counted by the LFs
before it. The view of the written bytes is the edited view if and only if the splice
makes no new CRLF, which a file of one newline kind never does and a mixed file can.

**Semantic index** (`PathFilters`, `SqlPredicates`, `SqlMeaning`, `Discovery`,
`SemanticStore`, `SemanticIndex`, `SemanticLaws`, `SemanticRuns`, `FailedRuns`,
`StampSafety`, `StaleRows`, `Chunking`). After every sequence of runs the rows of a
path are those its manifest entry names; an incremental run leaves what a forced one
leaves; a file is skipped by its stamp only when its content is the content indexed,
although metadata and content are read at different moments. One exception to
freshness is stated exactly: a file that was indexed and then became blank or not
UTF-8 keeps its old rows. After a run that failed half-way it is stated exactly which
paths the next run puts right. The three encodings of a path filter are compared, and
the text of every SQL predicate, read as SQL, selects exactly the rows meant.

**MCP framing** (`McpText`, `McpLossy`, `McpWriter`, `McpParse`, `McpReader`,
`McpHeaders`, `McpHeaderLaws`, `McpReaderLaws`, `McpRoundTrip`, `McpHeaderLimit`). Any
sequence of messages, framed or raw, delivered in pieces of any size, is read back in
order. A framed body keeps the newline its length counts; a raw line does not. A
framed body that is not UTF-8 costs that message alone. A header section is accepted
in every spelling of the header's name, with any other lines around it; conversely, a
framed message is only ever read after a bounded header section that announces one
length, the body's.

**Server loop** (`JsonRpc`, `JsonRpcLaws`, `ServerLoop`, `ServerCalls`, `ServerStop`,
`ServerProgress`, `ServerFaults`). A state machine of interleaved steps. Each message
is answered at most once, under the value of its own id, and exactly once by the end
of a drain without an abort, unless it is a tool call whose own id was cancelled
before it finished; such a call is not answered. When concurrent calls have distinct
ids the in-flight map is exactly the unfinished calls. A shutdown is the last message
read, nothing is read after a failure, nothing is aborted without one, and every run
comes to its end, within a number of steps that its input bounds.

**Glob front end** (`Languages`, `BraceSyntax`, `BraceExpansion`, `BraceCounting`,
`BraceRewriting`, `BraceRounds`, `GlobMatching`, `GlobLaws`, `GlobPruning`,
`GlobSearch`). Brace expansion by rewriting returns exactly the strings a pattern
means, each as often as it is written, and refuses a pattern exactly when one choice
has more than 64 alternatives or the pattern stands for more than 1024 strings,
counted with repetitions. The literal-suffix filter loses no match. The depth bound
loses a file of a list exactly when a pattern that matches it has more components than
the bound, and a file of some tree exactly when a pattern that can match at all has.
It loses none where a backslash separates or does not occur. Elsewhere the bound
counts pieces between slashes and backslashes, and the matcher those between slashes:
a pattern of one backslash is bounded by nought and matches a file at depth one.

**Text helpers** (`AnsiText`, `AnsiLaws`). Stripping leaves what a terminal would show
and cuts only between characters; each kind of escape sequence goes and no more;
truncation keeps the first scalars.

`Wrappers` and `Sequences` hold what the others share.

## Assumptions

- Timestamps follow a clock that never runs backwards and are multiples of a
  granule no longer than the two-second slack. There are no symbolic links, no
  hand-set times, and a rename is a removal followed by a creation.
- Ignore rules are an arbitrary function of the contents of the control files and
  of the path; controls above the scope root are absent.
- Content hashes have no collisions. A chunker is an arbitrary function of a
  path and its bytes; all runs of an index use one vector dimension, and
  discovery meets each file once.
- JSON values are taken as parsed, and payloads as bytes. A tool is its name.
- Counters do not overflow where the program saturates them.
- Deadlines and read errors end an operation early; a run of the index that ended
  so is not among the runs of `StampSafety`.

## Model

| member | source | states |
|---|---|---|
| FileTree.QuietSince | tools-mcp-local/src/tools/scope_cache.rs:809-822 | a node whose timestamp is of an earlier granule than the clock at some step was not touched since: same data, same listing at every step between |
| FileTree.SlackPassesGranule | tools-mcp-local/src/tools/scope_cache.rs:19 | a timestamp two seconds old lies in an earlier granule than the clock |
| IgnoreFingerprint.Fingerprint.ChangeReason | tools-mcp-local/src/tools/scope_cache.rs:85-112 | comparing two fingerprints gives no reason only when they are equal, and otherwise the reason of the merge |
| IgnoreFingerprint.MergeFindsLeastDifference | tools-mcp-local/src/tools/scope_cache.rs:86-111 | the merge of two sorted lists finds the least path at which they differ, and finds none exactly when they are equal |
| IgnoreFingerprint.ControlPathsMeaning | tools-mcp-local/src/tools/scope_cache.rs:1174-1225 | the enumerated paths are exactly those that control some directory of the scope |
| IgnoreFingerprint.EnumerateControls | tools-mcp-local/src/tools/scope_cache.rs:1174-1225 | the loop over directories yields each control once with its reason, a directory's own control winning over the global one, and the root's controls when there are none |
| IgnoreFingerprint.RecordEntries | tools-mcp-local/src/tools/scope_cache.rs:1134-1172 | one entry for each control in order, with the stamp the tree shows now |
| IgnoreFingerprint.FindGitDirs | tools-mcp-local/src/tools/scope_cache.rs:1134-1172 | the directories recorded as repositories are those with a `.git` directory |
| IgnoreFingerprint.BuildFingerprint | tools-mcp-local/src/tools/scope_cache.rs:1134-1172 | no fingerprint when ignore files are off, else that of the current tree |
| IgnoreFingerprint.FreshMeaning | tools-mcp-local/src/tools/scope_cache.rs:1269-1301 | an entry is fresh exactly when it is what would be recorded now or hides a rewrite behind an unchanged marker |
| IgnoreFingerprint.MergeJoin | tools-mcp-local/src/tools/scope_cache.rs:1046-1109 | the streaming loop over controls and recorded entries computes the merge-join |
| IgnoreFingerprint.IgnoreChangeReason | tools-mcp-local/src/tools/scope_cache.rs:1046-1111 | validation of a fingerprint against the tree, with or without one on either side |
| IgnoreFingerprint.StreamIsMerge | tools-mcp-local/src/tools/scope_cache.rs:1046-1109 | probing every control one by one gives the reason that comparing with a rebuilt list would give in which each recorded entry rewritten unseen is as it was recorded, for every recorded list |
| IgnoreFingerprint.ProbedExactly | tools-mcp-local/src/tools/scope_cache.rs:1269-1301 | that list differs from the rebuilt one if and only if some recorded entry hides a rewrite |
| IgnoreFingerprint.ProbingRefinesComparing | tools-mcp-local/src/tools/scope_cache.rs:1046-1172 | with every probe made, the validator returns nothing exactly when nothing but hidden rewrites differs, and otherwise the reason at the least path that differs |
| IgnoreFingerprint.VerdictsPartExactly | tools-mcp-local/src/tools/scope_cache.rs:1046-1172 | validating and rebuilding disagree on whether anything changed if and only if a rewrite is hidden and nothing else differs |
| IgnoreFingerprint.ReasonsAgreeExactly | tools-mcp-local/src/tools/scope_cache.rs:1046-1172 | they give the same reason if and only if the least difference is no hidden rewrite, or the next one seen carries its reason |
| IgnoreFingerprint.StreamFindsNothing | tools-mcp-local/src/tools/scope_cache.rs:1046-1109 | over the recorded controls, nothing is found exactly when each entry still is what was recorded, up to hidden rewrites |
| IgnoreFingerprint.SkippedProbesFindNothing | tools-mcp-local/src/tools/scope_cache.rs:1113-1132 | skipping probes that would have found no file changes no answer |
| ScopeWalk.BuildSnapshot | tools-mcp-local/src/tools/scope_cache.rs:824-934 | a build records the entries and stamps of the recursive walk, and its fingerprint |
| ScopeWalk.CollectEntries | tools-mcp-local/src/tools/scope_cache.rs:860-920 | the loop records every walked path and collects the directories to stamp |
| ScopeWalk.CollectedDirs | tools-mcp-local/src/tools/scope_cache.rs:860-920 | the directories collected are the root and those the walk reaches |
| ScopeWalk.Assemble | tools-mcp-local/src/tools/scope_cache.rs:824-934 | the snapshot of a given walk |
| ScopeWalk.DirectoryFingerprintsMatch | tools-mcp-local/src/tools/scope_cache.rs:979-994 | the loop accepts exactly when every recorded directory is still one with the same stamp |
| ScopeWalk.SameWalk | tools-mcp-local/src/tools/scope_cache.rs:824-934 | two trees that agree on the listings and controls of a scope give the same walk |
| ScopeLaws.WalkExactly | tools-mcp-local/src/tools/scope_cache.rs:860-920 | a walk lists exactly the nodes below the root that no depth, dot name or rule on the way down hides |
| ScopeLaws.ViewExactly | tools-mcp-local/src/tools/scope_cache.rs:1174-1225 | the rules see exactly the control files of the directories above, and which of these are repositories |
| ScopeLaws.ControlChangeIsNamed | tools-mcp-local/src/tools/scope_cache.rs:1174-1225 | a `.gitignore`, `.ignore` or exclude file that changed alone is the reason given |
| ScopeLaws.GlobalChangeIsNamed | tools-mcp-local/src/tools/scope_cache.rs:1174-1225 | and so is the global excludes file |
| ScopeLaws.TrustedExactly | tools-mcp-local/src/tools/scope_cache.rs:809-822 | a directory is trusted exactly when its stamp is two seconds older than the build |
| ScopeLaws.AbsentExactly | tools-mcp-local/src/tools/scope_cache.rs:1113-1132 | exactly which absent controls are not looked for again |
| ScopeHistory.SkippingProbesIsSound | tools-mcp-local/src/tools/scope_cache.rs:1005-1024 | once all directory stamps match, validating with trusted directories gives the answer of probing everything, the exclude file and its git directory included, for every history |
| ScopeHistory.AbsentThroughout | tools-mcp-local/src/tools/scope_cache.rs:1113-1132 | a control that validation takes as absent was no file at any moment since the snapshot's floor |
| ScopeHistory.HitEqualsFreshWalk | tools-mcp-local/src/tools/scope_cache.rs:237-296 | when the cheap checks pass on a snapshot with old stamps, a fresh walk of the current tree has the same paths and file types, even if writers ran during the build and each path was looked at in another state of the tree |
| ScopeStaleness.SettledHit | tools-mcp-local/src/tools/scope_cache.rs:237-296 | a settled snapshot built at one step and validated at a later one, probes skipped, has the entries of both walks |
| ScopeStaleness.RaceFreeIsSettled | tools-mcp-local/src/tools/scope_cache.rs:809-822 | a snapshot whose stamps are two seconds old, or whose controls are compared by content, is settled |
| ScopeStaleness.RaceFreeHit | tools-mcp-local/src/tools/scope_cache.rs:237-296 | the promise of the cache for such a snapshot, from what its holder can check |
| ScopeStaleness.NeverStaleExactly | tools-mcp-local/src/tools/scope_cache.rs:809-822 | under all rules that agree with what a snapshot shows it can never be validated wrongly if and only if every listing read and, where markers are trusted, every nonempty control that governs an existing path was of a passed granule; with ignore rules, at every depth bound |
| ScopeStaleness.NeverStaleWithoutRules | tools-mcp-local/src/tools/scope_cache.rs:809-822 | without ignore rules a snapshot can never be validated wrongly if and only if every listing read was of a passed granule |
| ScopeStaleness.StaleListing | tools-mcp-local/src/tools/scope_cache.rs:979-994 | a directory above the depth bound stamped in the current granule can take in a file that validation does not see |
| ScopeStaleness.StaleControl | tools-mcp-local/src/tools/scope_cache.rs:1269-1301 | where markers are trusted a control of the current granule can be rewritten unseen so that a path it governs is decided otherwise |
| ScopeRaces.RewrittenIgnoreFile | tools-mcp-local/src/tools/scope_cache.rs:1269-1335 | a concrete run: a rewritten control file with an unchanged marker validates although the walk differs |
| ScopeCache.KeptIsLongestSuffix | tools-mcp-local/src/tools/scope_cache.rs:427-441 | eviction keeps the longest most-recently-used suffix within both limits |
| ScopeCache.RepoScopeCache.Invalidate | tools-mcp-local/src/tools/scope_cache.rs:231-235 | the key leaves the map and the access order |
| ScopeCache.RepoScopeCache.TotalCachedScopeEntries | tools-mcp-local/src/tools/scope_cache.rs:420-425 | the total is the real sum over the map |
| ScopeCache.RepoScopeCache.EvictToCapacity | tools-mcp-local/src/tools/scope_cache.rs:427-441 | the loop keeps exactly that suffix; the running total never falls below nought |
| ScopeCache.RepoScopeCache.StoreSnapshot | tools-mcp-local/src/tools/scope_cache.rs:374-392 | the new entry is most recent, the rest is evicted to the limits |
| ScopeCache.RepoScopeCache.RebuildAndStore | tools-mcp-local/src/tools/scope_cache.rs:364-372 | a rebuild returns and stores a full walk of the current tree; it fails exactly when the walk does, and then changes no entry |
| ScopeCache.RepoScopeCache.CachedSnapshot | tools-mcp-local/src/tools/scope_cache.rs:326-341 | a lookup touches the key, counts it and marks a full walk due at the interval |
| ScopeCache.RepoScopeCache.MarkDirty | tools-mcp-local/src/tools/scope_cache.rs:394-401 | only the entry of the same generation is marked |
| ScopeCache.RepoScopeCache.ClearValidationFlags | tools-mcp-local/src/tools/scope_cache.rs:403-411 | only the entry of the same generation is cleared, and only after a full walk confirmed it |
| ScopeCache.RepoScopeCache.StillValid | tools-mcp-local/src/tools/scope_cache.rs:237-296 | the two cheap checks of a lookup |
| ScopeCache.RepoScopeCache.FullValidate | tools-mcp-local/src/tools/scope_cache.rs:285-293 | a due walk confirms the snapshot and clears its flags, or replaces it; it fails exactly when the walk does |
| ScopeCache.RepoScopeCache.FindStale | tools-mcp-local/src/tools/scope_cache.rs:257-283 | an entry is stale exactly when it is marked or fails a cheap check, and is then marked |
| ScopeCache.RepoScopeCache.Revalidate | tools-mcp-local/src/tools/scope_cache.rs:237-296 | a clean entry that passes and is due no walk is served as it is; in every other case the lookup fails exactly when the walk fails, and leaves a clean entry with the walk it returned |
| ScopeCache.RepoScopeCache.RebuildIfStale | tools-mcp-local/src/tools/scope_cache.rs:237-296 | the same for the snapshot a lookup holds, one replaced meanwhile included |
| ScopeCache.RepoScopeCache.GetOrBuild | tools-mcp-local/src/tools/scope_cache.rs:216-229 | every snapshot returned matches a full walk of fewer than max(1, interval) lookups of the key ago, in every sequence of lookups; a lookup fails only when a walk is needed and fails, and a served hit never does; after any other success the entry is clean and holds what was returned |
| ScopeCache.StoredStays | tools-mcp-local/src/tools/scope_cache.rs:427-441 | a stored snapshot stays exactly when it fits the limits by itself |
| ScopeCache.ServedEntriesAreFresh | tools-mcp-local/src/tools/scope_cache.rs:216-296 | a snapshot served at a step, settled when it was built, has the entries of a fresh walk of that step |
| Utf8.MatchAtBoundaries | tools-mcp-local/src/smart_file_edit/matching.rs:28-61 | a valid text found in a valid text starts and ends at character boundaries (section 3 of RFC 3629) |
| Utf8.BoundaryIsValidTail | tools-mcp-local/src/smart_file_edit/model.rs:348-365 | in a valid text the boundaries are where a valid text starts again |
| Utf8Laws.ScalarExactly | tools-mcp-local/src/smart_file_edit/model.rs:357-365 | a character stands at the front of a text exactly when the front is the encoding of a scalar value (section 3 of RFC 3629) |
| Utf8Laws.ValidIsEncoded | tools-mcp-local/src/smart_file_edit/model.rs:308-346 | a valid text is the encoding of some scalar values |
| FileModel.NewlineStats.Dominant | tools-mcp-local/src/smart_file_edit/model.rs:213-225 | the most frequent newline, ties to CRLF and then LF, none only for no newline |
| FileModel.TableExact | tools-mcp-local/src/smart_file_edit/model.rs:65-130 | the offset table runs from start to end, rises strictly in both columns and holds exactly the character boundaries of the view, for invalid files too |
| FileModel.TokensSplit | tools-mcp-local/src/smart_file_edit/model.rs:65-130 | a table entry splits the file and its view together |
| FileLoading.ScanLine | tools-mcp-local/src/smart_file_edit/model.rs:253-301 | one line: its content, its newline and the newline's kind |
| FileLoading.SplitLines | tools-mcp-local/src/smart_file_edit/model.rs:253-301 | the lines tile the file and each newline is counted once |
| FileNewlines.StatsExactly | tools-mcp-local/src/smart_file_edit/model.rs:253-301 | splitting counts every LF, CRLF and CR of the file, each as what it is |
| FileNewlines.WrittenNewline | tools-mcp-local/src/smart_file_edit/model.rs:213-235 | the bytes written for a newline are those of the most frequent kind, CRLF before LF before CR, and LF when there is none |
| FileLoading.AllLinesContinue | tools-mcp-local/src/smart_file_edit/model.rs:253-301 | the lines follow each other without a gap from the first byte to the last |
| FileLoading.DecodeLine | tools-mcp-local/src/smart_file_edit/model.rs:308-346 | decoding gives one character for each byte boundary, whether or not the line is UTF-8 |
| FileLoading.CharacterBoundaries | tools-mcp-local/src/smart_file_edit/model.rs:98-107 | the pairing loop adds one table entry behind each character of the line, in both coordinates |
| FileLoading.AppendLine | tools-mcp-local/src/smart_file_edit/model.rs:65-130 | appending a decoded line extends text, views and table as reading its tokens would |
| FileLoading.FromBytes | tools-mcp-local/src/smart_file_edit/model.rs:65-130 | splitting, decoding and collecting gives the text, views and table of one pass over the file |
| FileLoading.AllViewsTile | tools-mcp-local/src/smart_file_edit/model.rs:65-130 | the line views tile the text and there is at least one |
| SnippetEdit.NormalizeNewlinesToLf | tools-mcp-local/src/smart_file_edit/edit.rs:155-181 | the scanning loop computes the LF form of a snippet |
| SnippetEdit.ViewIsNormalized | tools-mcp-local/src/smart_file_edit/edit.rs:155-181 | the LF form of a valid snippet is its view as a file |
| SnippetEdit.ToLfHasNoCr | tools-mcp-local/src/smart_file_edit/edit.rs:155-181 | nothing but LF is left as a newline |
| SnippetEdit.ExpandLength | tools-mcp-local/src/smart_file_edit/edit.rs:189-194 | the replacement has exactly the length computed for it |
| SnippetEdit.AppendReplacementBytes | tools-mcp-local/src/smart_file_edit/edit.rs:196-213 | the copying loop writes the snippet with the file's newlines |
| SnippetEdit.ExpandRoundTrip | tools-mcp-local/src/smart_file_edit/edit.rs:155-213 | writing a snippet with any newline kind and normalizing it gives it back |
| SnippetEdit.ViewConcat | tools-mcp-local/src/smart_file_edit/model.rs:65-130 | the view of a concatenation is the concatenation of the views, less one LF for a CR that meets an LF |
| SnippetApply.ByteOffset | tools-mcp-local/src/smart_file_edit/model.rs:132-141 | the binary search finds the entry of an offset exactly when there is one |
| SnippetApply.LineIndexForOffset | tools-mcp-local/src/smart_file_edit/model.rs:143-153 | the line an offset lies in, the last one past the end |
| SnippetApply.FirstIn | tools-mcp-local/src/smart_file_edit/matching.rs:28-61 | the first occurrence within the range, and none only if there is none |
| SnippetApply.MatchOccurs | tools-mcp-local/src/smart_file_edit/matching.rs:28-61 | a match is an occurrence of a nonempty needle |
| SnippetApply.EveryMatchMaps | tools-mcp-local/src/smart_file_edit/edit.rs:95-103 | both ends of every match of a valid snippet map to file offsets |
| SnippetHints.ViewCount | tools-mcp-local/src/smart_file_edit/model.rs:253-301 | a file has as many line views as its text has lines, counted by LF |
| SnippetHints.RangeOfLines | tools-mcp-local/src/smart_file_edit/matching.rs:152-171 | a place is within the range of some lines exactly when the LF before its first and last byte say so |
| SnippetHints.HintIsHeeded | tools-mcp-local/src/smart_file_edit/matching.rs:28-61 | an edit is applied to the first occurrence within the hinted lines; it finds none exactly when none lies within them; the hint is refused exactly when it names no lines of the file |
| SnippetFile.Resolve | tools-mcp-local/src/smart_file_edit/edit.rs:53-103 | the checks before any write, in order, and the byte range to replace; what they decide is SnippetHints.HintIsHeeded |
| SnippetFile.ReportedLine | tools-mcp-local/src/smart_file_edit/edit.rs:126-133 | the line reported for an offset is one more than the LF before it |
| SnippetFile.TextFile.ApplySnippetEdit | tools-mcp-local/src/smart_file_edit/edit.rs:53-153 | the file changes only when the edit applies, and then by the replacement of the bytes of the first occurrence within the hinted lines; the lines reported are those of the match |
| SnippetCommutes.AppliedRange | tools-mcp-local/src/smart_file_edit/edit.rs:82-123 | the bytes replaced are those of the first match within the hinted lines |
| SnippetCommutes.EditCommutes | tools-mcp-local/src/smart_file_edit/edit.rs:82-123 | the view of the written bytes is the old view with the match replaced by the normalized snippet if and only if the splice makes no new CRLF |
| SnippetCommutes.SingleKindSeamFree | tools-mcp-local/src/smart_file_edit/edit.rs:196-213 | in a valid file of one newline kind the splice never makes one |
| SnippetSeams.MixedNewlinesSeam | tools-mcp-local/src/smart_file_edit/edit.rs:82-123 | a concrete mixed file and a request that is applied to it, with a view that loses a line |
| PathFilters.RangeIsUnder | tools-mcp-semantic/src/store.rs:390-408 | in byte order a path lies from `d/` up to `d0` exactly when it continues `d` with a slash |
| PathFilters.SqlAgrees | tools-mcp-semantic/src/discovery.rs:33-46 | the SQL condition of a filter keeps a row exactly when the filter contains its path |
| PathFilters.PathPrefixes | tools-mcp-semantic/src/qdrant_store.rs:308-319 | the prefixes are exactly the nonempty directories strictly above the path, shortest first |
| PathFilters.PrefixesAgree | tools-mcp-semantic/src/qdrant_store.rs:339-353 | the prefix filter agrees with the others except for the directory's own path and a nameless directory |
| SqlPredicates.EscapedLen | tools-mcp-semantic/src/store.rs:359-366 | an escaped literal has the length computed for it |
| SqlPredicates.PushEscapedSqlLiteral | tools-mcp-semantic/src/store.rs:368-376 | the loop doubles every quote |
| SqlPredicates.QuotedLexesBack | tools-mcp-semantic/src/store.rs:368-376 | a quoted value lexes back to one literal holding the value, whatever it contains |
| SqlPredicates.ConditionLexesBack | tools-mcp-semantic/src/store.rs:283-408 | the text of any condition lexes back to its tokens with its values as literals |
| SqlPredicates.DeletePathsPredicate | tools-mcp-semantic/src/store.rs:283-318 | the predicate is the text of the deletion condition, lexes back to it, and fills its capacity exactly |
| SqlMeaning.TextMeansCondition | tools-mcp-semantic/src/store.rs:283-408 | the text of a condition, read as SQL with AND binding closer than OR, keeps exactly the rows the condition describes |
| SqlMeaning.DeletionText | tools-mcp-semantic/src/store.rs:283-318 | the text of a deletion selects the rows of the given paths of the workspace and no others, whatever characters they hold |
| SqlPredicates.PushPathFilterSql | tools-mcp-semantic/src/store.rs:390-408 | appends the text of the filter's condition, of the length computed for it |
| SqlPredicates.PushDirectory | tools-mcp-semantic/src/store.rs:378-408 | the directory condition and its length |
| SqlPredicates.BuildFilterPredicate | tools-mcp-semantic/src/store.rs:328-357 | the search predicate is the text of the search condition, the language trimmed and left out when nothing remains; it lexes back and fills its capacity exactly |
| SqlMeaning.SearchText | tools-mcp-semantic/src/store.rs:328-408 | the text of a search keeps exactly the rows of the workspace, the scope and the trimmed language; a blank language asks for none |
| SemanticStore.DeletePaths | tools-mcp-semantic/src/store.rs:106-121 | deleting by the text of each batch removes the rows of all the paths and no others, in one statement for every 256 paths |
| SemanticStore.RemovedCount | tools-mcp-semantic/src/store.rs:106-121 | a deletion removes as many rows as were stored for its paths |
| SemanticStore.ChunkIdsRemaining | tools-mcp-semantic/src/store.rs:106-121 | the other paths keep their rows in order |
| SemanticIndex.WorkspaceIndex.StalePathsUnder | tools-mcp-semantic/src/manifest.rs:148-159 | exactly the manifest paths under the filter that were not discovered, each once |
| SemanticIndex.WorkspaceIndex.Refresh | tools-mcp-semantic/src/manifest.rs:131-146 | only the stamp of a known entry changes, and a change is reported |
| SemanticIndex.WorkspaceIndex.RemovePaths | tools-mcp-semantic/src/manifest.rs:172-179 | the given paths leave the manifest |
| SemanticIndex.WorkspaceIndex.ChunkCountForPaths | tools-mcp-semantic/src/manifest.rs:161-170 | the sum of the chunks of the known paths |
| SemanticIndex.WorkspaceIndex.IndexedCountsUnder | tools-mcp-semantic/src/model.rs:646-657 | files and chunks of exactly the entries the filter contains |
| SemanticIndex.WorkspaceIndex.ScanFiles | tools-mcp-semantic/src/model.rs:224-270 | the loop skips by stamp, skips by hash refreshing the stamp, skips what cannot be indexed, and collects the rest |
| SemanticLaws.DecisionExactly | tools-mcp-semantic/src/model.rs:224-270 | a file is skipped exactly when its size and time are those recorded, refreshed exactly when its content is, passed over when it has no chunks and else indexed |
| SemanticLaws.StampExactly | tools-mcp-semantic/src/model.rs:45-55 | a time is recorded exactly when it is two seconds older than the run and fits 64 bits |
| SemanticIndex.WorkspaceIndex.BuildRecords | tools-mcp-semantic/src/model.rs:349-387 | the rows of the pending files in order |
| SemanticIndex.WorkspaceIndex.InsertEntries | tools-mcp-semantic/src/model.rs:390-402 | one fresh entry for each pending file |
| SemanticIndex.WorkspaceIndex.IndexWorkspace | tools-mcp-semantic/src/model.rs:191-430 | a run leaves the manifest, the table name and the rows of the specification, and reports its counts |
| SemanticRuns.ManifestAfter | tools-mcp-semantic/src/model.rs:217-414 | the manifest after a run, path by path: dropped, reindexed, restamped or untouched |
| SemanticRuns.RowsAfter | tools-mcp-semantic/src/model.rs:281-388 | the rows after a run, path by path; what was reindexed or dropped does not depend on what was stored |
| SemanticRuns.AgreesExactly | tools-mcp-semantic/src/model.rs:281-414 | from any state and with any dimension: a path agrees after a run if and only if it was reindexed or dropped or its untouched entry already named its rows |
| SemanticRuns.RunKeepsStep | tools-mcp-semantic/src/model.rs:281-414 | after every successful run the store's chunk ids of each path are exactly the manifest's, and its rows carry the languages of their paths |
| SemanticRuns.RunKeepsFaith | tools-mcp-semantic/src/model.rs:217-270 | every entry names the chunks of the content it hashes |
| SemanticRuns.IncrementalEqualsForced | tools-mcp-semantic/src/model.rs:217-270 | an incremental and a forced run on the same discovery leave the same hash, chunk ids and rows for every path |
| SemanticRuns.OutsideScope | tools-mcp-semantic/src/manifest.rs:148-159 | a run leaves every path outside its scope as it was |
| SemanticRuns.RowsAccounted | tools-mcp-semantic/src/model.rs:276-388 | rows before plus updated chunks equals rows after plus deleted chunks, as the summary reports them |
| SemanticRuns.ReportedChunksAreStored | tools-mcp-semantic/src/model.rs:646-657 | the chunks reported as indexed are the rows stored under the filter |
| SemanticRuns.RunKeepsLabels | tools-mcp-semantic/src/discovery.rs:282-332 | every row stored carries the language of its path |
| Discovery.LanguageByExtension | tools-mcp-semantic/src/discovery.rs:282-332 | a file in any folder has the language of its extension in any case of letters, extension by extension |
| Discovery.NoExtensionNoLanguage | tools-mcp-semantic/src/discovery.rs:282-284 | a name without a dot behind its first character has none |
| FailedRuns.NextRunHealsExactly | tools-mcp-semantic/src/model.rs:326-421 | after a run that failed between changing the store and saving the manifest, the next run leaves a path in step if and only if it reindexes or drops it or its rows were still those the manifest names |
| FailedRuns.UntouchedOrReindexed | tools-mcp-semantic/src/model.rs:326-421 | so a path the failed run was not to change, or that the next run reindexes, is in step |
| FailedRuns.RevivedFileStaysLost | tools-mcp-semantic/src/model.rs:217-245 | a stale path whose rows are gone, found again with the recorded content, is skipped and stays without them |
| StampSafety.RecordedStampPins | tools-mcp-semantic/src/model.rs:45-55 | a stamp admitted by the slack rule pins the content read, even if a write fell between the observation and the read |
| StampSafety.EveryRun | tools-mcp-semantic/src/model.rs:191-430 | after any sequence of runs, whatever was written meanwhile, store and manifest agree, entries are faithful and stamps are trusted |
| StampSafety.FastPathIsSound | tools-mcp-semantic/src/manifest.rs:120-127 | whenever a file is skipped by its stamp, the content it held as it was observed has the recorded hash |
| StampSafety.IndexIsCurrentExactly | tools-mcp-semantic/src/model.rs:224-270 | after a run the rows of a file that held still are the chunks of its content if and only if it has chunks or was not indexed before |
| StaleRows.BlankedFileKeepsItsRows | tools-mcp-semantic/src/model.rs:246-260 | a concrete history of two runs with a write between them, after which a blank file still has its old row |
| StampSafety.AnyRunEqualsForced | tools-mcp-semantic/src/model.rs:217-270 | on files that hold still, an incremental run at any point of any history leaves the hash, the chunk ids and the rows a forced one leaves |
| Chunking.JoinLinesTrimmedAndHash | tools-mcp-semantic/src/chunking.rs:333-384 | the piecewise join is the trim of the whole join, absent exactly when every line is blank, and hashed as it is |
| Chunking.JoinSelected | tools-mcp-semantic/src/chunking.rs:363-383 | trimming only the outer lines trims the join |
| Chunking.DropBlankLines | tools-mcp-semantic/src/chunking.rs:333-346 | blank lines before and after do not show in the trimmed join |
| Chunking.WindowsTile | tools-mcp-semantic/src/chunking.rs:290-331 | windows are not empty, all but the last hold a hundred lines, neighbours share exactly fifteen, only the last reaches the end |
| Chunking.WindowOfLine | tools-mcp-semantic/src/chunking.rs:290-331 | every line lies in one of the windows counted by 1 + ceil((n - 100) / 85) |
| Chunking.FallbackLineChunks | tools-mcp-semantic/src/chunking.rs:290-331 | the loop emits the chunks of those windows, no more than the capacity reserved |
| Chunking.EveryLineIsIndexed | tools-mcp-semantic/src/chunking.rs:290-384 | every line that is not blank lies in an emitted chunk that holds the trimmed join of its window |
| Chunking.ChunkHasWindow | tools-mcp-semantic/src/chunking.rs:290-331 | conversely every chunk is that of a window that is not blank: its line numbers from one, its trimmed join and its hash |
| Chunking.ChunksAscend | tools-mcp-semantic/src/chunking.rs:290-331 | the chunks come in the order of their lines, none twice |
| McpText.UsizeRoundTrip | tools-mcp-core/src/mcp_protocol.rs:446-464 | a length written in decimal parses back |
| McpText.UsizeDigits | tools-mcp-core/src/mcp_protocol.rs:446-464 | a machine-size number has at most twenty digits, so the header buffer suffices |
| McpText.LossyIsValid | tools-mcp-core/src/mcp_protocol.rs:342-362 | the lossy form of a line is UTF-8, and a valid line is kept |
| McpWriter.WriteUsizeDecimal | tools-mcp-core/src/mcp_protocol.rs:446-464 | writes the digits in place and touches nothing else |
| McpWriter.FormatContentLengthHeader | tools-mcp-core/src/mcp_protocol.rs:435-444 | fills the front of the 64-byte buffer with the header |
| McpWriter.Writer.WriteMcpPayloadWithMode | tools-mcp-core/src/mcp_protocol.rs:397-433 | appends header and payload, the payload ended by one newline |
| McpReaderLaws.WireForm | tools-mcp-core/src/mcp_protocol.rs:397-444 | a framed message on the wire, byte by byte |
| McpReader.BufferedStream.FillBuf | tools-mcp-core/src/mcp_protocol.rs:284-328 | waits for a piece when nothing is buffered; empty only at the end |
| McpReader.BufferedStream.ReadExact | tools-mcp-core/src/mcp_protocol.rs:251-259 | takes exactly the bytes asked for, across pieces |
| McpReader.BufferedStream.ReadLineBytesBounded | tools-mcp-core/src/mcp_protocol.rs:284-328 | the next line whatever the pieces, or an error exactly when it is longer than the limit |
| McpReader.BufferedStream.SkipTrailingNewline | tools-mcp-core/src/mcp_protocol.rs:266-276 | past one newline as far as it is buffered |
| McpReader.BufferedStream.ReadFramedBody | tools-mcp-core/src/mcp_protocol.rs:244-282 | the body of the announced length, or the error for a short or garbled one |
| McpReader.BufferedStream.ReadMcpMessage | tools-mcp-core/src/mcp_protocol.rs:102-282 | whatever the pieces, the result is that of parsing the remaining bytes, and the reader stands behind the message; what the parse accepts is McpReaderLaws |
| McpHeaderLaws.NameExactly | tools-mcp-core/src/mcp_protocol.rs:371-373 | the name of the length header is recognized in every spelling and among all white space, and nothing else is |
| McpReaderLaws.HeadersAccepted | tools-mcp-core/src/mcp_protocol.rs:102-282 | a header section with one length, however spelled and written, among any other lines, is read as that length, and the body follows |
| McpReaderLaws.SecondLengthRefused | tools-mcp-core/src/mcp_protocol.rs:204-212 | a second length is an error, even the same one |
| McpReaderLaws.TooLargeRefused | tools-mcp-core/src/mcp_protocol.rs:225-234 | a length above ten mebibytes is an error |
| McpReaderLaws.NoLengthRefused | tools-mcp-core/src/mcp_protocol.rs:180-190 | headers without a length are an error |
| McpReaderLaws.RawLineExactly | tools-mcp-core/src/mcp_protocol.rs:342-362 | a line is a message by itself exactly when it begins as JSON after white space |
| McpReaderLaws.JsonLineAccepted | tools-mcp-core/src/mcp_protocol.rs:119-165 | such a line is read whole after any empty lines, and mended when it is not UTF-8 |
| McpReaderLaws.LongLineRefused | tools-mcp-core/src/mcp_protocol.rs:284-328 | a line above ten mebibytes is an error |
| McpLossy.BrokenIsLongest | tools-mcp-core/src/mcp_protocol.rs:342-362 | a replacement character stands for the longest beginning of some character, or for one byte that begins none |
| McpHeaders.FramedMessageIsSound | tools-mcp-core/src/mcp_protocol.rs:102-282 | a framed message is UTF-8 of exactly the one length its header lines announce, and the header section is within its limit |
| McpHeaders.RawMessageIsSound | tools-mcp-core/src/mcp_protocol.rs:119-165 | a message without headers is one line that begins as JSON, after nothing but blank lines |
| McpRoundTrip.HeaderParses | tools-mcp-core/src/mcp_protocol.rs:435-444 | a header that was written is read as the length it was written with |
| McpRoundTrip.ItemParses | tools-mcp-core/src/mcp_protocol.rs:102-282 | each message is read as what was sent with its framing, a garbled body as an error, and the rest is untouched |
| McpRoundTrip.WriteAll | tools-mcp-core/src/mcp_protocol.rs:397-433 | writing messages in turn puts them on the wire one after another |
| McpRoundTrip.ReadAll | tools-mcp-core/src/mcp_protocol.rs:102-282 | reading until the end returns every message in order with its framing, a garbled body as one recoverable error, for every division of the stream |
| McpHeaderLimit.LimitIsExact | tools-mcp-core/src/mcp_protocol.rs:102-242 | a message is refused for its headers if and only if the lines counted before it exceed the limit |
| McpHeaderLimit.HalfSeenNewline | tools-mcp-core/src/mcp_protocol.rs:266-276 | a reader that saw half a CRLF reads on as one that skipped it exactly as long as the header section has room for the two bytes, and else refuses it |
| JsonRpc.ParseRequest | tools-mcp-server/src/mcp_server.rs:121-167 | a request has an id exactly when its object has one, and its id, or that of the error about it, is the value of that field |
| JsonRpcLaws.RequestExactly | tools-mcp-server/src/mcp_server.rs:121-167 | exactly which values are requests, what is read from them, and which id an error carries |
| JsonRpcLaws.ResponseExactly | tools-mcp-server/src/mcp_server.rs:185-195 | exactly which values answer a request of this side |
| JsonRpcLaws.IdRoundTrip | tools-mcp-server/src/composition.rs:17-24 | an id is read from a string, a number or null and nothing else, and stands for the value it was read from |
| JsonRpcLaws.EveryMethodAnswered | tools-mcp-server/src/mcp_server.rs:33-46 | every request with an id gets the reply of its method under the value of its id, method by method; one without gets none |
| JsonRpcLaws.CancellationNames | tools-mcp-server/src/mcp_server.rs:341-346 | exactly the cancellation notice names a call, by the value of its `requestId` |
| JsonRpcLaws.ShutdownNames | tools-mcp-server/src/mcp_server.rs:375-499 | exactly the shutdown methods, asked for with an id, end the reading |
| JsonRpcLaws.ItemAnsweredUnderItsId | tools-mcp-server/src/mcp_server.rs:501-537 | an item of a batch is answered under the value of its own id |
| JsonRpcLaws.Receive | tools-mcp-server/src/main.rs:137-176 | parsing a body gives what the loop takes it for |
| JsonRpcLaws.RequestExactlyMet | tools-mcp-server/src/main.rs:190-253 | field by field, which requests become tasks, run a tool, are registered as calls under their id, stop the reading, or name a call to cancel |
| JsonRpcLaws.BatchExactlyMet | tools-mcp-server/src/main.rs:254-295 | a batch is a task but no call, stops the reading exactly for a shutdown among its items, and cancels what its items would cancel alone |
| JsonRpcLaws.AloneAsInBatch | tools-mcp-server/src/mcp_server.rs:77-119 | a value is answered by itself as it is in a batch of one; an empty or too long array is answered with one invalid request, and what is no JSON with a parse error, without an id |
| JsonRpc.ParseRpcMessage | tools-mcp-server/src/mcp_server.rs:77-119 | an array of 1 to 256 items is a batch classified item by item, any other array is one invalid request, any other value is classified by itself |
| JsonRpc.BatchAnswersOnce | tools-mcp-server/src/mcp_server.rs:501-537 | section 6 of the JSON-RPC 2.0 Specification: each item of a batch is answered once when an answer is due, and else not at all |
| JsonRpc.ShutdownIsAnswered | tools-mcp-server/src/mcp_server.rs:375-499 | a request gets no answer exactly when it is a notification |
| JsonRpc.DispatchJsonrpcRequest | tools-mcp-server/src/mcp_server.rs:375-499 | the answer of a request, withheld exactly when its tool ran under a token cancelled meanwhile, and its one side effect, the token a cancellation reaches |
| JsonRpc.DispatchJsonrpcBatch | tools-mcp-server/src/mcp_server.rs:501-537 | the items are answered in order, a shutdown among them is noticed, and nothing is returned when nothing is due |
| JsonRpc.InflightRegistry.Cancel | tools-mcp-server/src/composition.rs:45-59 | exactly the token bound to the id is cancelled |
| ServerLoop.RunKeepsInv | tools-mcp-server/src/main.rs:89-311 | in every state of every run each message has been written for exactly as often as its handling has come to, and every write is what the message is due |
| ServerLoop.AnsweredAtMostOnce | tools-mcp-server/src/main.rs:195-311 | in every interleaving a message is answered at most once, and with the answer it is due |
| ServerLoop.AnsweredExactlyOnce | tools-mcp-server/src/main.rs:195-311 | drained without an abort, every message that is due an answer had exactly one unless it was withdrawn, and the others had none |
| ServerCalls.InflightIsExact | tools-mcp-server/src/composition.rs:37-80 | when concurrent ids are distinct, the in-flight map is exactly the unfinished single tool calls |
| ServerCalls.CancelReachesOnlyItsTarget | tools-mcp-server/src/composition.rs:45-59 | a step cancels a token exactly when it names the id of that token's unfinished call |
| ServerCalls.CancelledWasAsked | tools-mcp-server/src/mcp_server.rs:341-346 | a call is cancelled only if some message named its id |
| ServerCalls.UnansweredWasAskedToCancel | tools-mcp-core/src/tool_registry.rs:150-170 | drained without an abort, a message due an answer had exactly one, or is a tool call whose id a peer asked to cancel |
| ServerStop.NothingIsReadAfterShutdown | tools-mcp-server/src/main.rs:202-251 | in every run, once a shutdown was read no later state has read anything more |
| ServerStop.ReadingStopsOnlyForCause | tools-mcp-server/src/main.rs:195-251 | reading has stopped only when the input has ended, something failed, or the last message read was a shutdown |
| ServerStop.StoppedReadsNothing | tools-mcp-server/src/main.rs:297-311 | after the read loop nothing is read |
| ServerStop.DrainTerminates | tools-mcp-server/src/main.rs:297-311 | every step of the drain brings its end nearer |
| ServerStop.DrainIsNeverStuck | tools-mcp-server/src/main.rs:297-311 | until everything has ended there is a step to take |
| ServerProgress.StepShortens | tools-mcp-server/src/main.rs:195-311 | every step of any part of the server brings the end nearer |
| ServerProgress.AlwaysAStep | tools-mcp-server/src/main.rs:195-311 | until the server is done there is a step to take |
| ServerProgress.EveryRunEnds | tools-mcp-server/src/main.rs:195-311 | on any input and in any interleaving a run has no more steps than its input bounds, and one that cannot go on is done |
| ServerFaults.FlagsOfStep | tools-mcp-server/src/main.rs:85-303 | exactly which step sets which flag and which makes the loop stop reading |
| ServerFaults.NothingIsReadAfterAFailure | tools-mcp-server/src/main.rs:98-135 | after a failed write or a lost framing no later state of the run has read more, and running tasks are aborted when reading has stopped |
| ServerFaults.FaultlessRunAnswers | tools-mcp-server/src/main.rs:85-312 | in a run without failures, once done, everything was read or all up to a shutdown, no task was aborted, and each message has exactly the answers it is due, calls cancelled in time left out |
| ServerFaults.CancelledIsNotAnswered | tools-mcp-core/src/tool_registry.rs:150-170 | a call cancelled before its tool has finished is never answered, in any interleaving |
| BraceSyntax.ParseKeepsText | tools-mcp-local/src/tools/glob.rs:53-92 | every string is a pattern, parsed without losing a character |
| BraceExpansion.ChoiceInContext | tools-mcp-local/src/tools/glob.rs:64-86 | a choice means in any context what its alternatives mean in its place |
| BraceRewriting.ExpandSingleBrace | tools-mcp-local/src/tools/glob.rs:55-92 | the stack scan finds the first closing brace whose group holds a comma, and gives two to 64 patterns |
| BraceRewriting.ScanFinds | tools-mcp-local/src/tools/glob.rs:55-92 | what the scan finds is a group of the parsed pattern with these alternatives, and finding nothing means there is no choice anywhere |
| BraceRewriting.ExpandOneMeaning | tools-mcp-local/src/tools/glob.rs:55-92 | one expansion keeps the meaning; a pattern that cannot be expanded means itself |
| BraceRewriting.ExpandOneShrinks | tools-mcp-local/src/tools/glob.rs:55-92 | every pattern made has fewer braces than the one it was made from |
| BraceCounting.SizeInContext | tools-mcp-local/src/tools/glob.rs:64-86 | what stands in a pattern multiplies its number of expansions, wherever it stands |
| BraceCounting.ExpandOneCounts | tools-mcp-local/src/tools/glob.rs:55-92 | an expansion fails exactly for a choice of more than 64 alternatives, and else keeps the number of expansions |
| BraceRounds.ExpandRound | tools-mcp-local/src/tools/glob.rs:25-51 | one pass over the patterns, with both limits |
| BraceRounds.RoundCounts | tools-mcp-local/src/tools/glob.rs:25-51 | a pass keeps the number of expansions and fails only over a limit |
| BraceRounds.ExpandBraces | tools-mcp-local/src/tools/glob.rs:22-51 | it succeeds if and only if no choice has more than 64 alternatives and the pattern stands for at most 1024 strings, counted with repetitions; the patterns are then as many, exactly what the pattern means, and none can be expanded; it ends after at most one round for each brace and one more |
| GlobPruning.RequiredSuffixIsRequired | tools-mcp-local/src/tools/glob.rs:101-112 | every match ends with the required suffix |
| GlobPruning.RequiredSuffixExactly | tools-mcp-local/src/tools/glob.rs:101-112 | the required suffix is the longest end of the pattern without metacharacters, and there is none exactly when that is empty or crosses a separator |
| GlobPruning.PatternTraversalMaxDepth | tools-mcp-local/src/tools/glob.rs:125-172 | the counting loop, and no bound as soon as a component is `**` |
| GlobPruning.GlobTraversalMaxDepth | tools-mcp-local/src/tools/glob.rs:114-123 | the maximum over the patterns, and no bound as soon as one has none |
| GlobPruning.DepthBoundExactly | tools-mcp-local/src/tools/glob.rs:125-176 | for any match the bound is right if and only if it is at least the number of components of the pattern on the platform |
| GlobPruning.BareBackslashIsLost | tools-mcp-local/src/tools/glob.rs:155-176 | a pattern of one backslash has bound nought where a backslash is an ordinary character, and matches a file at depth one |
| GlobLaws.StarMatches | tools-mcp-local/src/tools/glob.rs:296-304 | a star takes exactly the runs of characters without a separator and, where leading dots are literal, without a dot that begins a component |
| GlobLaws.RecursiveMatches | tools-mcp-local/src/tools/glob.rs:296-304 | two stars take nothing, or whole components up to a separator, or all that is left, under the same rule for dots |
| GlobSearch.MatchesAny | tools-mcp-local/src/tools/glob.rs:296-304 | trying the patterns behind their suffix filters finds a match exactly when there is one |
| GlobSearch.MatchEntries | tools-mcp-local/src/tools/glob.rs:281-323 | the first matching files up to the limit; a list that reaches the limit counts as truncated |
| GlobSearch.PruningLosesExactly | tools-mcp-local/src/tools/glob.rs:251-323 | for any patterns and any list, the depth-bounded search reports what the unbounded one does if and only if no file of the list matches a pattern with more components than the bound |
| GlobSearch.PruningIsSafeExactly | tools-mcp-local/src/tools/glob.rs:114-172 | it does so in every tree if and only if the bound covers every pattern that some path can match |
| GlobSearch.PruningLosesNothing | tools-mcp-local/src/tools/glob.rs:251-323 | and so in every tree where a backslash separates or does not occur |
| AnsiText.StripAnsiCodes | tools-mcp-core/src/text.rs:21-43 | every cut is between characters; the result is what a terminal shows, a subsequence without ESC |
| AnsiText.StrippedIsShown | tools-mcp-core/src/text.rs:21-101 | the skips on bytes leave what a terminal reading scalar by scalar shows |
| AnsiText.StripTwice | tools-mcp-core/src/text.rs:21-43 | stripping again changes nothing |
| AnsiLaws.PlainStays | tools-mcp-core/src/text.rs:21-43 | text without ESC stays, whatever follows |
| AnsiLaws.ControlSequenceGoes | tools-mcp-core/src/text.rs:71-80 | `ESC [`, parameters and any final byte from 0x40 to 0x7E are removed, and the text behind them is not touched |
| AnsiLaws.OpenControlSequenceTakesAll | tools-mcp-core/src/text.rs:71-80 | a control sequence that never ends takes everything |
| AnsiLaws.StringSequenceGoes | tools-mcp-core/src/text.rs:82-96 | `ESC ]`, a string and BEL or ESC backslash are removed |
| AnsiLaws.CharsetGoes | tools-mcp-core/src/text.rs:55-58 | ESC, a parenthesis and one character are removed |
| AnsiLaws.ShortSequenceGoes | tools-mcp-core/src/text.rs:59-61 | ESC and any other character are removed |
| AnsiText.SkipEscSequence | tools-mcp-core/src/text.rs:49-63 | the length of an escape sequence of each kind |
| AnsiText.SkipCsiSequence | tools-mcp-core/src/text.rs:71-80 | through the first final byte |
| AnsiText.SkipStringControlSequence | tools-mcp-core/src/text.rs:82-96 | through BEL or ESC backslash; another ESC does not end it |
| AnsiText.SkipOneScalar | tools-mcp-core/src/text.rs:65-69 | on to the next character boundary, and not at all past the end or inside a character |
| AnsiText.NthScalar | tools-mcp-core/src/text.rs:120-127 | the byte offset after the first scalars, when there are more |
| AnsiText.TruncateAtCharBoundary | tools-mcp-core/src/text.rs:103-131 | the first n scalars and an ellipsis exactly when there are more than n, on each of its paths |

## Left out

- Directory lengths and inode numbers in a metadata stamp: a stamp is the length of a file, the modification time and, where trusted, the change time.
- The order of the entries and directories of a snapshot: they are maps.
- Followed links, change information from Windows handles, and the file-type cache of single directories and of outlines.
- ScopeHistory.HitEqualsFreshWalk: asks that all recorded stamps be old or compared by content, since a build among writers may miss what younger stamps hide; for a build at one step ScopeStaleness.NeverStaleExactly has the exact condition.
- GlobSearch.PruningLosesNothing: asks that a backslash separate or not occur; GlobSearch.PruningIsSafeExactly has the exact condition.
- The text, the lines, the embedding and the indexing time of a stored row: a row is its workspace, path, language and chunk id.
- SemanticRuns.IncrementalEqualsForced: leaves stamps and indexing times aside, in which the two runs do differ.
- SemanticIndex.WorkspaceIndex.IndexWorkspace: describes successful runs; what a run leaves that failed before its manifest was saved is modelled by value in FailedRuns.
- SqlPredicates.BuildFilterPredicate: takes the trimming of strings as a parameter; the Qdrant store also lowers the case of the language, which the LanceDB store does not.
- McpReader.BufferedStream.ReadMcpMessage: time is not modelled; the program waits for the byte after a framed body before it returns the message.
- ServerFaults.NothingIsReadAfterAFailure: a write that fails tells the loop in the same step; the program can still take one message that arrives between the two.
- Partial writes: writing a response is one step of the server loop, although an aborted task may stop in the middle of one.
- Two running calls with one id: what the loop does then is in the model, but the theorems on the in-flight map ask for distinct ids.
- GlobMatching collapses no consecutive `**`, which changes no match.
- Tool schemas, argument validation, error texts, response payloads, outline rendering, suggestions for a missing match, and the path policy: single branches with nothing to relate.
- Git processes, HTTP, Azure DevOps, the database clients, the embedding model and tree-sitter.
