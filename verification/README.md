# Cannectors runtime: verified models

A Dafny model of the hardest behaviour of the Cannectors runtime, which runs pipelines of an
input, filters and an output, together with proofs of what that behaviour promises.  One
module, or a few, per component:

- **SQL placeholders** (`SqlScanner`, `Regexp`, `SqlRegexp`, `SqlGrammar`, `SqlTemplate`,
  `SqlMeaning`).  The scanner that skips literals, comments and `$$` regions, against the regular
  expression it stands for and against the pieces a statement is made of; the translation loop,
  and what a driver makes of its output.  The translation preserves the meaning of every
  statement for postgres; for mysql and sqlite it does exactly when the rendered text has no
  question mark of its own.
- **Template escaping** (`TemplateLexer`, `TemplateRewrite`, `TemplateGrammar`,
  `TemplatePieces`).  The quote-aware tokenizer, what it makes of each piece of a template, and
  the source-to-source rewrite that pipes every output tag through an escape filter.  The
  rewritten source tokenizes into the same template, for every string and every non-empty
  filter name without quotes, closing braces or spaces.
- **Scheduler** (`Scheduler`, `SchedulerSafety`, `SchedulerSessions`, `SchedulerStops`,
  `SchedulerDrain`, `SchedulerObjects`).  The overlap and queue protocol as interleaved critical
  sections of any number of goroutines: mutual exclusion, conservation of ticks, Stop, sessions
  and draining, over all runs.
- **Delivery** (`Delivery`, `DeliveryObjects`).  A pipeline against its persisted watermark,
  with failures and crashes at every step.
- **Record paths** (`RecordPath`, `Store`, `StoreEdits`, `StorePaths`, `RecordStore`).  Get,
  Set and Delete as a lens on values, and the in-place code on maps and slices shared by
  reference, proved to compute it.
- **Call filters** (`CallMerge`, `CallCache`, `CallFilter`, `Lru`, `CacheKey`, `Sorting`).
  The merge contract, clones that never alias the cache, the LRU cache against a map that
  never forgets, and the injective default cache key.
- **Requests** (`QueryMerge`, `Pagination`, `PaginationStops`, `DatabasePagination`, `Retry`).
  Query merging, the pagination loops, and the two retry loops.
- **Loop filters** (`LoopScopes`, `LoopResults`).  The aliases of nested loops in
  `_metadata.loop`, and what becomes of records and items.

Code that changes state is modelled by classes and methods with loops, each proved against a
function of its inputs or its old state; the laws are lemmas about those functions.
`dafny verify dfyconfig.toml` checks everything.

## Where a promise needs a condition

Where a property that one would expect is false of the code, the code is modelled as it is
and the exact condition is proved.

- A `?` outside literals and comments is taken for a placeholder by mysql and sqlite drivers
  (`SqlMeaning.QuestionMarksPreserveMeaning`).
- An include, extends, import or from statement whose keyword is followed by a line break draws
  no objection (`TemplatePieces.ObjectionIffSeparated`, `TemplatePieces.LineBreakWitness`).
- `$0` passes the static check and is always rejected later (`SqlMeaning.ZeroRejected`).
- A replaced or re-registered pipeline id can have two owners while a goroutine of an earlier
  registration is still active, or while cron still has an entry of one.  Stop forgets the
  pipelines and leaves their cron entries, so registering a pipeline again after a restart is
  enough (`SchedulerDrain.ReplaceExclusion`, `SchedulerDrain.RestartWitness`,
  `SchedulerDrain.StillActiveWitness`).
- A queued request can be without an owner in a session that follows a Stop that timed out,
  or one that left requests in registrations it no longer knew
  (`SchedulerSessions.SessionServedIff`, `SchedulerSafety.NextSessionOwnsQueues`,
  `SchedulerSafety.TimedOutStopForgets`, `SchedulerSessions.UnregisteredRequestStays`).
- An update that becomes visible late is lost: in a version neither delivered nor in the batch
  in hand, and stamped at or before the persisted start, or the start of an execution that has
  its answer and persists later.  A transaction that commits late, a source whose clock lags,
  or a tie does it (`Delivery.PersistedWatermarkDelivered`, `Delivery.CommitLosesIffLate`,
  `Delivery.InFlightWitness`).  The next execution asks for it again exactly when it is stamped
  after the whole second of the persisted start; otherwise nothing asks for it again and a
  source need not give it (`Delivery.AskedAgainIff`, `Delivery.LateUpdateIsLost`).
- The documentation of Delete (`internal/recordpath/path.go:77-78`) says missing paths are
  ignored; a path that ends at an array with an indexed segment deletes the key from that
  element, although Get finds nothing there (`RecordPath.DeleteOfMissing`,
  `RecordPath.DeleteOfMissingWitness`).
- The cache's size bound fails exactly when the least recently used key is the empty string,
  which is never evicted (`Lru.LRUCache.Set`, `Lru.EmptyKeyWitness`).  A lifetime of zero or
  less means the default; the comment names zero only.
- Encoding the spaces of a malformed name can turn it into a given one, which is then there
  twice and is dropped by a second merge (`QueryMerge.MergeGivesOnce`).
- A cursor walk loses rows when a page boundary falls between equal cursor values
  (`DatabasePagination.CursorCompleteIffCleanCuts`).
- deepMerge is not associative where a map is replaced by something else and that by a map
  lacking one of its fields (`CallMerge.AssociativeIffNoClash`, `CallMerge.ClashWitness`).
- `_metadata` that is not a map is lost by a loop (`LoopScopes.AfterIsSameIffScopable`,
  `LoopScopes.MetadataWitness`).
- A negative MaxAttempts yields neither a value nor an error
  (`Retry.NegativeAttemptsDoNothing`), and a Retry-After is unbounded when no maximum is set.

## Model

| member | source | states |
|---|---|---|
| SqlScanner.RespelledFlat | internal/sqltemplate/sqltemplate.go:54-66 | respelling placeholders of a token sequence opens no literal, comment or `$$` region that was not there |
| SqlScanner.CloseQuoteLocal | internal/sqltemplate/sqltemplate.go:54-66 | where a quoted literal closes, doubled quotes and backtracking included, does not depend on text respelled after it |
| SqlScanner.SkipStable | internal/sqltemplate/sqltemplate.go:54-66 | a skipped region (literal, comment, `$$` region) is lexed identically whatever placeholders after it become |
| SqlScanner.RefStable | internal/sqltemplate/sqltemplate.go:54-66 | a respelled placeholder is lexed as one token of its new spelling |
| SqlScanner.RescanRespelled | internal/sqltemplate/sqltemplate.go:54-80 | re-lexing rendered SQL in which only placeholders were respelled gives exactly those tokens, with every skipped region intact, unterminated quotes included |
| SqlRegexp.HeadIsPreferred | internal/sqltemplate/sqltemplate.go:54-66 | the regular expression of the source, transcribed and run by backtracking: at every place of every text the next token is as long as the match it prefers, a region to skip or a placeholder according to its group, and one character where nothing matches |
| SqlRegexp.ScanFindsAll | internal/sqltemplate/sqltemplate.go:68-80 | the placeholders of the lexer are the matches of group 1 among all successive matches of that expression |
| SqlGrammar.PieceScans | internal/sqltemplate/sqltemplate.go:54-66 | a line comment to the end of its line, a block comment or `$$` text to its first close, a literal with doubled quotes to a quote that is not doubled or that no later quote closes, a placeholder with all its digits: each is read as one token, whatever comes before or after; an opener without a close is ordinary text |
| SqlGrammar.PiecesScan | internal/sqltemplate/sqltemplate.go:54-80 | a statement spelled from such pieces has exactly their tokens |
| SqlTemplate.ScanPlaceholders | internal/sqltemplate/sqltemplate.go:68-80 | the loop finds exactly the placeholder tokens of the lexer, with their positions and numbers |
| SqlTemplate.ValidatePlaceholders | internal/sqltemplate/sqltemplate.go:122-136 | an undeclared number if there is one, else the first declared parameter never referenced, else every number is declared and every parameter used |
| SqlTemplate.EvalParam | internal/sqltemplate/sqltemplate.go:205-221 | a parameter is evaluated at its first use and remembered |
| SqlTemplate.BuildDescribed | internal/sqltemplate/sqltemplate.go:173-250 | the translation loop computes the declarative translation, error cases included; each parameter is evaluated at most once, only if referenced, in order of first appearance |
| SqlGrammar.NothingToBind | internal/sqltemplate/sqltemplate.go:173-250 | a statement whose only `$N` are in literals, comments and `$$` texts comes back verbatim with no arguments, for every driver |
| SqlGrammar.CommentWitness | internal/sqltemplate/sqltemplate.go:54-66 | `--$1` needs no parameter |
| SqlGrammar.FirstErrorIs | internal/sqltemplate/sqltemplate.go:205-221 | the error is that of the first number that is undeclared or whose expression fails, and says which of the two |
| SqlGrammar.NumberSpelled | internal/sqltemplate/sqltemplate.go:68-80 | a placeholder has the number it spells, or the largest int beyond that |
| SqlMeaning.PostgresPreservesMeaning | internal/sqltemplate/sqltemplate.go:173-250 | re-lexing the emitted SQL and binding `$k` to argument k gives the rendered statement with parameter N's value at every `$N` |
| SqlMeaning.QuestionMarksPreserveMeaning | internal/sqltemplate/sqltemplate.go:205-250 | binding the emitted `?` by position gives the same statement if and only if the rendered text has no bare `?` of its own |
| SqlMeaning.MarkedMeaning | internal/sqltemplate/sqltemplate.go:205-250 | the positional reading of the marked tokens is the meaning of the rendered ones; marks and arguments differ by exactly the bare `?` |
| SqlMeaning.PositionalArity | internal/sqltemplate/sqltemplate.go:205-250 | a question-mark driver accepts a statement exactly when marks and arguments agree in number |
| SqlMeaning.OccurrencesInOrder | internal/sqltemplate/sqltemplate.go:205-250 | renumbering by first appearance makes the emitted indices first appear as 1, 2, 3, ... |
| SqlMeaning.RenumberedNumbers | internal/sqltemplate/sqltemplate.go:205-250 | the numbers of the emitted SQL are the occurrences looked up in the order of first appearance |
| SqlMeaning.DriversAgree | internal/sqltemplate/sqltemplate.go:173-250 | both styles fail alike; otherwise the `?` arguments and labels are the postgres ones read at the renumbered occurrences, one postgres argument per distinct parameter, every label naming the expression its argument came from |
| SqlMeaning.ZeroPassesCheck | internal/sqltemplate/sqltemplate.go:122-136 | `$0` changes nothing about what the static check asks of the numbers in a text |
| SqlMeaning.ZeroRejected | internal/sqltemplate/sqltemplate.go:205-250 | a text without undeclared numbers is rejected by the translation if and only if it mentions `$0`, an expression fails, or delimiters remain |
| SqlMeaning.ZeroWitness | internal/sqltemplate/sqltemplate.go:122-136 | the text `$0` passes the static check of a template without parameters and cannot be translated |
| SqlMeaning.BareMarkWitness | internal/sqltemplate/sqltemplate.go:205-250 | a one-character statement that binds nothing, for which the driver asks for a value |
| TemplateLexer.SegmentsSpell | internal/template/rewrite.go:33-82 | the tokenizer loses nothing: its segments spell the source |
| TemplateLexer.FindTagClose | internal/template/rewrite.go:183-207 | the quote-aware loop finds the first tag close outside quotes, or reports that there is none |
| TemplateLexer.FindRawEnd | internal/template/rewrite.go:224-241 | the loop finds the end of the matching endraw tag, or reports an unterminated raw block |
| TemplateLexer.ScanTemplate | internal/template/rewrite.go:33-82 | the scanner emits exactly the segments of the recursive tokenizer |
| TemplateGrammar.AtomsRun | internal/template/rewrite.go:183-207 | an expression is run through up to the first close outside its strings, which end at their first quote not behind a backslash |
| TemplateGrammar.KeywordIs | internal/template/rewrite.go:209-220 | the keyword of a statement is its first word, whatever its whitespace markers and the blanks around them |
| TemplatePieces.PieceSegments | internal/template/rewrite.go:33-82 | whatever follows it, a comment up to its first close despite quotes, a raw block from `raw` to `endraw` with markers or not, a statement or an output tag is one segment of its kind |
| TemplatePieces.PiecesSegment | internal/template/rewrite.go:33-82 | a template spelled from such pieces and ordinary characters has exactly their segments |
| TemplatePieces.RawText | internal/template/rewrite.go:33-82 | any text without a statement between `{% raw %}` and `{% endraw %}` is one raw segment, whatever follows |
| TemplatePieces.RawUnclosed | internal/template/rewrite.go:222-241 | a raw block that never ends, or ends behind a statement that never closes, takes the rest with it |
| TemplatePieces.Unterminated | internal/template/rewrite.go:33-82 | from a tag or comment that never closes on, everything is literal text |
| TemplateRewrite.RegionStable | internal/template/rewrite.go:33-82 | a tag or raw block is delimited in the same place whatever rewritten text follows it |
| TemplateRewrite.RewrittenTagCloses | internal/template/rewrite.go:245-262 | a rewritten output tag closes exactly at its own end |
| TemplateRewrite.InjectRetokenizes | internal/template/rewrite.go:89-103 | tokenizing the injected template gives the source's segments, each output tag in its parenthesised filtered form and all others byte for byte, for every string |
| TemplateRewrite.InjectKeepsVerdicts | internal/template/rewrite.go:89-156 | the injected template has an output tag exactly when the source has one, and its blocks draw the same objection |
| TemplateRewrite.RewriteMeaning | internal/template/rewrite.go:245-262 | a rewritten tag keeps its whitespace markers and its expression is the original one in parentheses piped through the filter; a blank tag stays |
| TemplateRewrite.InjectIdentity | internal/template/rewrite.go:89-103 | the rewrite changes nothing exactly when no output tag has an expression |
| TemplateRewrite.TagNeedsOpener | internal/template/rewrite.go:33-103 | a template without the opening braces has no output tag, so the early return loses nothing |
| TemplateRewrite.InjectEscape | internal/template/rewrite.go:89-103 | the builder loop computes the rewrite |
| TemplateRewrite.HasOutputTag | internal/template/rewrite.go:109-120 | true exactly when some segment is an output tag |
| TemplatePieces.OutputIffInterpolation | internal/template/rewrite.go:109-120 | there is an output tag exactly when a piece is one: braces in comments, raw blocks and strings are none |
| TemplatePieces.NothingToEscape | internal/template/rewrite.go:89-103 | a template without output tags is left as it is |
| TemplatePieces.RewrittenText | internal/template/rewrite.go:245-262 | braces, marker, blanks, expression, blanks, marker, braces: the rewritten tag, character by character; a dash belongs to the expression unless it touches the braces |
| TemplateRewrite.CheckBlocks | internal/template/rewrite.go:134-156 | the first objection in template order, or none |
| TemplatePieces.VerdictIsFirstObjection | internal/template/rewrite.go:134-156 | the objection is to the first statement whose word is include, extends, import or from, or filter where values are escaped, and to nothing else |
| TemplatePieces.ObjectionIffSeparated | internal/template/rewrite.go:209-220 | whatever follows such a word, the objection is drawn if and only if that is nothing, a blank or a tab |
| TemplatePieces.LineBreakWitness | internal/template/rewrite.go:209-220 | include and its argument on two lines: no objection |
| SchedulerSafety.StepKeepsInv | internal/scheduler/scheduler.go:425-604 | every step of every goroutine keeps: `running` counts the owners, acquisitions balance releases, the queue is bounded, ticks are conserved, the wait group counts what is in flight |
| SchedulerSafety.ReachableStatesSafe | internal/scheduler/scheduler.go:425-604 | over every run: at most one owner per registration, `running` exactly when there is one, each acquisition released once, queue at most 100, admitted = executed + cancelled + queued + dropped + discarded + in transit |
| SchedulerSafety.StoppedCountsDown | internal/scheduler/scheduler.go:326-421 | once stopped, the wait group never rises until the next Start |
| SchedulerSafety.QuietWhenZero | internal/scheduler/scheduler.go:326-421 | with the wait group at zero nothing is in flight and no registration is running |
| SchedulerSafety.StopLeavesNothing | internal/scheduler/scheduler.go:326-421 | when Stop has waited and cleared, nothing is in flight, nothing is running, the cleared queues are empty, and it stays so until the next Start |
| SchedulerStops.StopBeginsNone | internal/scheduler/scheduler.go:326-421 | in every run, from the beginning of a Stop to the next Start, only executions that were in progress already are in progress |
| SchedulerStops.CheckBegins | internal/scheduler/scheduler.go:425-480 | an owner begins an execution exactly when its context is alive |
| SchedulerStops.DropsOnlyWhenFull | internal/scheduler/scheduler.go:485-519 | a tick acquires where nobody owns, is queued behind fewer than a hundred others, and is dropped otherwise |
| SchedulerStops.RunningRefusesReplacement | internal/scheduler/scheduler.go:194-268 | Register changes nothing exactly when the registered pipeline is running |
| SchedulerStops.UnregisteredStaysQuiet | internal/scheduler/scheduler.go:272-289 | after Unregister no goroutine is started for the pipeline until it is registered again, unless a cron entry was stale |
| SchedulerSafety.FirstSessionOwnsQueues | internal/scheduler/scheduler.go:194-321 | throughout the first session, whatever was registered before it, a non-empty queue implies a running registration |
| SchedulerSafety.QuietStartOwnsQueues | internal/scheduler/scheduler.go:294-321 | with the wait group at zero, a Start begins a session with every queue owned if and only if every queue is empty |
| SchedulerSafety.NextSessionOwnsQueues | internal/scheduler/scheduler.go:326-421 | after a Stop that waited and cleared, the next session begins so if and only if the registrations Stop no longer knew (unregistered, replaced or from earlier sessions) have empty queues |
| SchedulerSafety.TimedOutStopForgets | internal/scheduler/scheduler.go:326-421 | a run in which Stop gives up waiting and the next session begins with a queued request nobody owns |
| SchedulerSessions.SessionServedIff | internal/scheduler/scheduler.go:294-321 | for a Start after any Stop, timed out or not: no run of the session leaves a queued request without an owner if and only if none is without one at the Start and every owner about to release for having seen the scheduler stopped has a registration with an empty queue, no cron entry and no goroutine on its way |
| SchedulerSessions.UnregisteredRequestStays | internal/scheduler/scheduler.go:326-421 | a run in which a registration is unregistered with requests queued, Stop returns nil, and the next session begins with one of them unowned |
| SchedulerSafety.SessionKeepsQueueOwned | internal/scheduler/scheduler.go:522-604 | a session that begins with every queue owned keeps them owned up to the next Stop |
| SchedulerDrain.OwnerDrains | internal/scheduler/scheduler.go:522-604 | left without new ticks, stop or cancellation, and however others interleave, an owner with k queued requests runs exactly k more executions and then releases |
| SchedulerDrain.OnlyNewSafe | internal/scheduler/scheduler.go:194-289 | as long as one registration has all the active goroutines and cron entries of a pipeline id, the id never gets two owners, ticks at any time included |
| SchedulerDrain.ReplaceExclusion | internal/scheduler/scheduler.go:194-289 | registering a pipeline id in a started scheduler can lead to two owners of it if and only if a goroutine cron started for an earlier registration has not returned, or cron still has an entry of an earlier registration that Register does not remove |
| SchedulerDrain.NoStaleBeforeClear | internal/scheduler/scheduler.go:194-289 | until a Stop clears the pipelines, cron has entries for exactly the registered ones, so none is stale |
| SchedulerDrain.ClearMakesStale | internal/scheduler/scheduler.go:385-421 | the Stop that clears the pipelines leaves a stale cron entry for every one of them |
| SchedulerDrain.RestartWitness | internal/scheduler/scheduler.go:194-421 | register, start, stop, start: nothing is active, and registering the pipeline again can lead to two owners |
| SchedulerDrain.StillActiveWitness | internal/scheduler/scheduler.go:194-268 | register, start, one tick not admitted yet: no cron entry is stale, and replacing the registration can lead to two owners |
| SchedulerObjects.RegisteredPipeline.TryStartExecution | internal/scheduler/scheduler.go:485-519 | acquires, queues, or drops when the queue is full |
| SchedulerObjects.RegisteredPipeline.BeginFinish | internal/scheduler/scheduler.go:522-547 | takes a queued request, or releases |
| SchedulerObjects.RegisteredPipeline.Drain | internal/scheduler/scheduler.go:326-421 | empties the queue and counts what it discards |
| SchedulerObjects.Service.FinishExecution | internal/scheduler/scheduler.go:522-547 | without interference: works off the whole queue, executing each request or giving each up under a cancelled context, and releases; once stopped, discards one request and releases |
| SchedulerObjects.Service.ExecuteQueuedPipeline | internal/scheduler/scheduler.go:551-604 | one queued execution, or none under a cancelled context, and what follows from it; the not-started path releases without draining |
| SchedulerObjects.Service.ExecutePipeline | internal/scheduler/scheduler.go:425-480 | one tick from admission to release, executing or, under a cancelled context, giving up everything queued |
| Delivery.FetchCovers | internal/persistence/render.go:47-61 | an honest answer to the downward-rendered watermark, with what was delivered before, covers everything up to the start of the execution |
| Delivery.StepKeepsInv | internal/runtime/pipeline.go:444-668 | every step (load, connect, fetch, filter, send, write, rename, failure, crash, an update that is not late) keeps everything delivered up to the persisted start, and delivered or about to be up to the start of an execution that has its answer |
| Delivery.PersistedWatermarkDelivered | internal/runtime/pipeline.go:444-668 | over every run, with failures and crashes anywhere and updates becoming visible at any time with any stamp: at no point is a source record stamped at or before the persisted timestamp undelivered, nor can one become so without a further update, if and only if no update of the run is late: its version neither delivered nor in the batch in hand, and stamped at or before the persisted start or the start of an execution that has its answer |
| Delivery.CommitLosesIffLate | internal/runtime/pipeline.go:150-194 | after an update, with any stamp and in any phase of an execution, some run without a further update ends in a loss if and only if the update is late |
| Delivery.InFlightWitness | internal/runtime/pipeline.go:444-668 | a concrete run whose update becomes visible between the answer and the first persisted start, and is lost by the rename |
| Delivery.AskedAgainIff | internal/persistence/render.go:47-61 | every honest answer to an execution holds a record if and only if it is stamped after the whole second of the timestamp in the loaded state, or after the epoch when none is tracked or known |
| Delivery.LateUpdateIsLost | internal/persistence/render.go:47-61 | a late update stamped no later than the whole second of the start is lost: the next execution need not see it, and persists a state as if it had been delivered |
| Delivery.LateWitness | internal/persistence/render.go:47-61 | a concrete run of two executions and one update in which it happens |
| Delivery.WatermarkNeverRetreats | internal/runtime/pipeline.go:150-194 | the persisted timestamp never moves backwards, whatever fails and wherever it crashes |
| DeliveryObjects.StateStore.Save | internal/persistence/state.go:86-153 | the state file is the new snapshot exactly when Save succeeds, and the old one otherwise |
| Delivery.LoadFindsEarned | internal/persistence/state.go:157-203 | whatever failed and wherever the run crashed, Load finds nothing or the complete snapshot of an execution whose Send succeeded |
| Delivery.SuccessSaves | internal/runtime/pipeline.go:150-194 | an undisturbed execution delivers its batch and leaves in the file its start and its last id, each exactly if the configuration tracks it |
| DeliveryObjects.Executor.ExecuteWithContext | internal/runtime/pipeline.go:444-552 | for every outcome of every stage an execution delivers only through a successful Send, leaves the state file alone unless it sent, and ends in the state its protocol steps lead to |
| DeliveryObjects.StepsPlay | internal/runtime/pipeline.go:444-668 | the stages of one execution are a run of the protocol ending in the state read off its outcomes |
| RecordPath.ParsePart | internal/recordpath/path.go:90-107 | a segment is a key exactly without an opening bracket |
| RecordPath.IndexedShape | internal/recordpath/path.go:90-107 | an indexed segment is a key without brackets and, in brackets up to its end, the numeral of its index |
| RecordPath.IndexedPart | internal/recordpath/path.go:90-107 | every segment of that shape is indexed by its numeral, or malformed when there is none, so the malformed segments are exactly the others with an opening bracket |
| RecordPath.SignedIndex | internal/recordpath/path.go:90-107 | an index is a numeral that fits an int, with a plus sign or none; with a minus sign only zero is one |
| RecordPath.PartRoundTrip | internal/recordpath/path.go:90-107 | a key with an index reads back as it was written |
| RecordPath.GetAfterSet | internal/recordpath/path.go:37-75 | Get after Set returns the value, for every path Set accepts |
| RecordPath.SetWhatGetFound | internal/recordpath/path.go:37-75 | setting what Get found is accepted and changes nothing |
| RecordPath.SecondSetWins | internal/recordpath/path.go:44-75 | the second of two Sets on one path wins, malformed paths included |
| RecordPath.DivergingSets | internal/recordpath/path.go:44-75 | Sets on diverging paths commute and keep what the other path finds |
| RecordPath.DeleteUnindexed | internal/recordpath/path.go:79-85 | Delete of an unindexed leaf makes it not found and leaves every diverging path exactly as it was |
| RecordPath.DeleteElementShifts | internal/recordpath/path.go:183-193 | Delete of an element moves exactly the later ones down by one |
| RecordPath.DeleteOfMissing | internal/recordpath/path.go:77-85 | deleting a path Get does not find changes nothing if and only if the way does not end at an array whose element carries the key |
| RecordPath.DeleteOfMissingWitness | internal/recordpath/path.go:195-201 | a record and a path that Get does not find, whose deletion empties an element |
| RecordStore.Records.Set | internal/recordpath/path.go:44-75 | the loop over a store of shared maps and slices leaves the record the value-level Set describes, changes no cell outside it, and reports exactly the empty and malformed paths |
| RecordStore.Records.Delete | internal/recordpath/path.go:79-85 | the walk and the one in-place removal leave the record the value-level Delete describes |
| RecordStore.Records.Navigate | internal/recordpath/path.go:110-136 | the walk ends where the segments lead, or reports that they lead nowhere |
| RecordStore.Records.EnsureMapAtPath | internal/recordpath/path.go:203-210 | the map a key names is there, created where it was missing or of another type |
| RecordStore.Records.EnsureArray | internal/recordpath/path.go:222-229 | the array a key names is there and long enough, grown with nulls |
| RecordStore.Records.EnsureMapInArray | internal/recordpath/path.go:231-246 | the map an element names is there, the array grown as needed |
| RecordStore.Records.SetArrayElement | internal/recordpath/path.go:212-220 | the element holds the value, the array grown as needed |
| RecordStore.Records.DeleteFromMap | internal/recordpath/path.go:183-193 | the key goes, or the element and its place |
| RecordStore.Records.DeleteFromArray | internal/recordpath/path.go:195-201 | the key goes from the element, where that is a map |
| StorePaths.RewriteAt | internal/recordpath/path.go:44-75 | changing the cells of the node a path leads to changes the record at that path and nowhere else |
| StorePaths.SetInAtNode | internal/recordpath/path.go:44-75 | finishing Set from any node its walk passes gives the same record |
| Store.Frame | internal/recordpath/path.go:44-75 | what happens outside a record's cells does not concern it |
| CallMerge.MergeTwice | internal/modules/filter/call_merge.go:167-184 | merging a response a second time changes nothing |
| CallMerge.MergeAbsorbs | internal/modules/filter/call_merge.go:167-184 | a merged record absorbs its left operand |
| CallMerge.MergeStrategy | internal/modules/filter/call_merge.go:115-131 | merge, at every depth: a response value that is no map wins, and a field of the record the response does not have is kept |
| CallMerge.ReplaceStrategy | internal/modules/filter/call_merge.go:115-131 | replace: a key of the response has exactly its value, every other key the one of the record |
| CallMerge.AppendStrategy | internal/modules/filter/call_merge.go:143-163 | append: the result key holds the response whole, and nothing else changes |
| CallMerge.Refusals | internal/modules/filter/call_merge.go:94-154 | null and scalars are refused by every strategy, a non-empty list exactly by merge and replace, to which an empty one is the identity |
| CallMerge.StrategyWitness | internal/modules/filter/call_merge.go:115-131 | a nested field that merge keeps and replace loses |
| CallMerge.MergeCovered | internal/modules/filter/call_merge.go:167-184 | a merge is its right operand exactly when the maps of that have every field the maps of the left one have |
| CallMerge.AssociativeIffNoClash | internal/modules/filter/call_merge.go:167-184 | deepMerge is associative exactly where no map is replaced by something else and that by a map lacking one of its fields |
| CallMerge.ClashWitness | internal/modules/filter/call_merge.go:167-184 | three responses whose merge depends on the order |
| CallCache.NothingShared | internal/modules/filter/call_merge.go:111-132 | no cell is reachable both from a cached response and from a record |
| CallCache.EditsKeepCache | internal/modules/filter/call_merge.go:111-132 | any sequence of in-place edits through the records in hand, new cells and values moved from one record into another included, leaves every cache entry spelling the response it was given |
| CallCache.TreeOnSide | internal/modules/filter/call_merge.go:186-216 | a value stays on the cache's or the records' side of the store as far as it reaches |
| CallFilter.Filter.CloneCallData | internal/modules/filter/call_merge.go:189-198 | the clone spells the same value in fresh, unshared cells |
| CallFilter.Filter.CloneCallMap | internal/modules/filter/call_merge.go:201-207 | every entry of the clone is a fresh tree apart from the others |
| CallFilter.Filter.CloneCallList | internal/modules/filter/call_merge.go:210-216 | every item of the clone is a fresh tree apart from the others |
| CallFilter.Filter.DeepMerge | internal/modules/filter/call_merge.go:167-184 | the loops compute the recursive merge into a fresh map, changing no existing cell |
| CallFilter.Filter.MergeResult | internal/modules/filter/call_merge.go:94-163 | the record becomes what the merge contract says, or the contract's error is reported |
| CallFilter.Filter.ProcessRecord | internal/modules/filter/http_call.go:512-553 | on hit and on miss alike the record becomes what the contract says of the response; the cache keeps the response for the key, and for every other key what it held unless it expired or was evicted |
| CallFilter.Filter.EditRecords | internal/modules/filter/http_call.go:512-553 | edits of records between calls keep what the cache means, so a hit answers with the response first fetched |
| Lru.LRUCache.constructor | internal/cache/lru.go:69-82 | an empty cache, with 1000 entries and five minutes where none or less is configured |
| Lru.LRUCache.Get | internal/cache/lru.go:87-110 | a hit is the value last set for the key, not past its lifetime; a miss only for a key that was never set or was deleted, has expired, or was crowded out by at least maxSize other keys used since |
| Lru.LRUCache.Set | internal/cache/lru.go:115-137 | evicts exactly when full and the key is new; the victim is least recently used and crowded out; the size bound is kept unless the cache is full, the key new and the empty key least recently used, and broken when that is the only such key |
| Lru.OneVictim | internal/cache/lru.go:171-192 | the victim is determined exactly when no other entry was last used as early |
| Lru.EmptyKeyWitness | internal/cache/lru.go:171-192 | one place, the empty key in it and a second key: the cache holds both |
| Lru.LRUCache.EvictLRU | internal/cache/lru.go:171-192 | finds a least recently used key and removes it unless it is the empty key |
| Lru.LRUCache.Delete | internal/cache/lru.go:140-144 | the key goes |
| Lru.LRUCache.Clear | internal/cache/lru.go:147-151 | everything goes |
| Lru.LRUCache.CleanExpired | internal/cache/lru.go:196-211 | exactly the expired entries go, and are counted |
| Lru.VictimCrowded | internal/cache/lru.go:171-192 | at an eviction at least maxSize other distinct keys were used no earlier than the victim's last use |
| Lru.StaysCrowded | internal/cache/lru.go:115-137 | a key crowded out stays so until it is used again |
| Lru.RefinesHit | internal/cache/lru.go:87-110 | a hit keeps the cache a restriction of the map that never forgets, with an excuse for each missing key |
| Lru.RefinesStored | internal/cache/lru.go:115-137 | so does a Set |
| CacheKey.EscapeReads | internal/modules/filter/sql_call.go:474-495 | quoted strings have one reading: no escape is the beginning of another |
| CacheKey.PrintReads | internal/modules/filter/sql_call.go:445-495 | unique readability: a JSON text is the print of one value |
| CacheKey.TwoFields | internal/modules/filter/sql_call.go:445-467 | fields come by name, each quoted and followed by a colon, with a comma between them |
| CacheKey.TwoItems | internal/modules/filter/sql_call.go:474-495 | items come in order with a comma between them |
| CacheKey.EscapeWitness | internal/modules/filter/sql_call.go:474-495 | a quote, a line break and an angle bracket in a string, escaped |
| CacheKey.SameKeyIffSameTree | internal/modules/filter/sql_call.go:409-429 | two records share the default key exactly when they are the same JSON tree, or when neither can be printed and both fall back to the query |
| CacheKey.MarshalDeterministic | internal/modules/filter/sql_call.go:434-467 | the printer's output, or an error exactly where a value cannot be printed |
| CacheKey.MarshalJSON | internal/modules/filter/sql_call.go:474-495 | the buffer loop prints the object field by field in the sorted order, or fails with its first unprintable value |
| CacheKey.CanonicalizeObject | internal/modules/filter/sql_call.go:445-467 | an object is printed from its keys collected in any order and sorted |
| Sorting.SortedUnique | internal/modules/filter/sql_call.go:445-467 | there is one way to sort a set of keys, so the key does not depend on map iteration |
| Sorting.SortStrings | internal/modules/filter/sql_call.go:445-467 | the sorted sequence of the collected keys |
| QueryMerge.EscapeRoundTrip | internal/httpclient/url.go:115-131 | unescaping an escaped component gives it back |
| QueryMerge.EscapeClean | internal/httpclient/url.go:115-131 | an escaped component has none of `&`, `=`, `+`, `#` or space |
| QueryMerge.EscapedByteIs | internal/httpclient/url.go:115-131 | letters, digits and -_.~$ stand for themselves, a space is %20, anything else its two hex digits behind a percent sign |
| QueryMerge.MergeReads | internal/httpclient/url.go:65-100 | the merged query reads as the author's remaining pairs, in order and spelling up to %20, then the given pairs by sorted name |
| QueryMerge.KeptInOrder | internal/httpclient/url.go:65-88 | of the author's pairs exactly those stay, in order, that are not empty and whose name is not given |
| QueryMerge.MergeGivesOnce | internal/httpclient/url.go:65-113 | every given name is there exactly once with its value, if and only if no malformed name of the author's becomes a given one when its spaces are encoded |
| QueryMerge.MergeTwice | internal/httpclient/url.go:65-113 | merging the same parameters twice equals merging them once, under the same condition |
| QueryMerge.WellFormedNames | internal/httpclient/url.go:102-113 | names that are well-formed percent-encoding meet that condition |
| QueryMerge.ImpostorWitness | internal/httpclient/url.go:102-113 | a query and a parameter for which it fails |
| QueryMerge.UnescapeSpaced | internal/httpclient/url.go:90-98 | encoding raw spaces changes no decoded text |
| QueryMerge.MergeQueryParams | internal/httpclient/url.go:65-100 | the two loops and the final replacement compute the merge; no parameters leave the query verbatim |
| Pagination.FetchPageBased | internal/modules/input/http_polling_pagination.go:34-84 | returns an error after a failed answer, else every record of every page received |
| Pagination.FetchOffsetBased | internal/modules/input/http_polling_pagination.go:86-144 | the same by offset |
| Pagination.FetchCursorBased | internal/modules/input/http_polling_pagination.go:146-195 | the same by cursor |
| Pagination.AnyServerByPage | internal/modules/input/http_polling_pagination.go:34-84 | whatever the server says: at most 1000 requests, for pages 1, 2, 3, ..., none after a failure |
| Pagination.AnyServerByOffset | internal/modules/input/http_polling_pagination.go:86-144 | the same by offset, each request one limit further; none for a negative limit |
| Pagination.AnyServerByCursor | internal/modules/input/http_polling_pagination.go:146-195 | the same by cursor, each request carrying the cursor of the answer before it |
| PaginationStops.PagesStop | internal/modules/input/http_polling_pagination.go:34-84 | whatever the server says, the loop stops at the first answer that failed, was empty or was the last page by its positive total, and after 1000 pages at the latest |
| PaginationStops.OffsetsStop | internal/modules/input/http_polling_pagination.go:86-144 | the same for an answer that failed, was empty or short, or completed the positive total |
| PaginationStops.CursorsStop | internal/modules/input/http_polling_pagination.go:146-195 | the same for an answer that failed or gave no cursor; an empty page does not stop it |
| Pagination.HonestPages | internal/modules/input/http_polling_pagination.go:34-84 | an honest server's dataset comes back in order and once, up to its first empty page and the cap |
| Pagination.PagesComplete | internal/modules/input/http_polling_pagination.go:34-84 | complete without an empty page and within the cap |
| Pagination.HonestOffsets | internal/modules/input/http_polling_pagination.go:86-144 | an honest server's dataset comes back in order and once, up to 1000 times the limit |
| Pagination.OffsetsComplete | internal/modules/input/http_polling_pagination.go:86-144 | complete exactly when the dataset is no longer than that |
| Pagination.CursorsComplete | internal/modules/input/http_polling_pagination.go:146-195 | the first 1000 pages come back in order and once, empty ones included |
| DatabasePagination.FetchLimitOffset | internal/modules/input/database.go:291-335 | exactly the dataset, unless one of the queries it takes fails |
| DatabasePagination.FetchCursor | internal/modules/input/database.go:343-390 | the loop collects page after page past the last cursor, and fails when a query it takes does |
| DatabasePagination.CursorCompleteIffCleanCuts | internal/modules/input/database.go:343-390 | the cursor walk returns the dataset exactly when no page boundary falls between two rows with the same cursor value |
| DatabasePagination.UniqueCutsClean | internal/modules/input/database.go:343-390 | so always with a strictly increasing cursor column |
| DatabasePagination.NoCursorFirstPage | internal/modules/input/database.go:343-390 | without a cursor column it is complete exactly within one page |
| DatabasePagination.TornPageWitness | internal/modules/input/database.go:343-390 | two rows with one cursor value and a page of one: the second is lost |
| Retry.RetryExecutor.Execute | internal/errhandling/retry.go:122-186 | answer, attempts, delays and errors are those of the specified run without a hook |
| Retry.RetryExecutor.ExecuteWithHooks | internal/errhandling/retry.go:242-316 | answer, attempts, delays, errors and callbacks are those of the specified run; without a hook, the run of Execute |
| Retry.RunDecides | internal/errhandling/retry.go:122-186 | a run ends at its first deciding attempt with what that attempt decides; at most MaxAttempts+1 calls, none after a failure that is not retryable; errors and delays are those of the calls |
| Retry.RunReports | internal/errhandling/retry.go:242-316 | one callback for each call, in order and with its delay; the successful attempt; the retry count where the run succeeded or gave up; one recorded delay for each wait |
| Retry.DelaysExponential | pkg/connector/retry.go:55-64 | for any reals that begin at the configured delay and grow by the multiplier, the n-th recorded delay without a hook is the whole part of the n-th of them, or of the maximum once that is smaller |
| Retry.DelaysMultiply | pkg/connector/retry.go:55-64 | with a whole multiplier each recorded delay is that many times the one before, up to the maximum |
| Retry.DelaysBounded | internal/errhandling/retry.go:319-331 | every delay lies in [0, MaxDelayMs], without a hook always, with one when the maximum is positive |
| Retry.DelaysGrow | pkg/connector/retry.go:55-64 | without a hook the recorded delays never shrink |
| Retry.BackoffBounded | pkg/connector/retry.go:34-64 | with a valid configuration the backoff is within its bounds and non-decreasing in the attempt |
| Retry.ClampBounded | internal/errhandling/retry.go:319-331 | a clamped override lies in [0, MaxDelayMs] when that is positive |
| Retry.UnboundedRetryAfter | internal/errhandling/retry.go:242-331 | with a hook and no maximum, the delays of a whole run stay within a bound if and only if every override its errors gave does |
| Retry.NegativeAttemptsDoNothing | internal/errhandling/retry.go:122-186 | neither a value nor an error comes back exactly when MaxAttempts is negative |
| LoopScopes.PushStacked | internal/modules/filter/loop.go:235-243 | entering a loop adds its alias on top of the enclosing ones |
| LoopScopes.SetIndexMoves | internal/modules/filter/loop.go:264-272 | moving to the next item changes the index of the innermost alias alone |
| LoopScopes.LeavePops | internal/modules/filter/loop.go:245-262 | the deferred cleanup takes exactly its own alias away and removes only maps it created |
| LoopScopes.StackedReads | internal/modules/filter/loop.go:217-272 | inside nested loops `_metadata.loop` holds exactly the prior keys and the enclosing aliases, each at its index |
| LoopScopes.AfterIsSameIffScopable | internal/modules/filter/loop.go:363-373 | `_metadata` survives a loop unchanged if and only if it and its loop child are absent or maps |
| LoopScopes.RecordSeesBelow | internal/modules/filter/loop.go:217-313 | every leaf filter sees the enclosing aliases, then a way down the nested loops to it, each alias once and at an index, and nothing else but the prior keys |
| LoopScopes.EveryItemSeen | internal/modules/filter/loop.go:264-313 | a loop that begins with a leaf and succeeds has shown it every item at its own index |
| LoopResults.OnErrorDecides | internal/modules/filter/loop.go:154-212 | a run over records that is not cancelled keeps all of them under log, exactly those without an error under skip, and succeeds under fail if and only if none had one |
| LoopResults.NotAnArrayWitness | internal/modules/filter/loop.go:217-225 | one record whose field is no array: dropped under skip, kept under log, the end under fail |
| LoopResults.ItemsDecided | internal/modules/filter/loop.go:264-313 | the loop ends with the error of the first item whose chain failed, gave back more than one record or put a map where none was, or with the cancellation; otherwise the array written back has exactly the items whose chain gave back one record that still has the alias |
| LoopResults.RecordDecided | internal/modules/filter/loop.go:217-313 | no field, no effect; another type or a taken alias, an error; and otherwise what the items decide |
| LoopResults.ChainDecided | internal/modules/filter/loop.go:316-329 | a chain gives back what its last filter to run did, and ends early only at a failure or at no records |
| LoopScopes.Runner.ProcessRecord | internal/modules/filter/loop.go:217-313 | under any nesting, on success and on every error: `_metadata` is restored, and result and sightings are exactly those of nested loops whose scope is an argument; there the mutation check has no way to fire |
| LoopScopes.Runner.Iterate | internal/modules/filter/loop.go:264-313 | the items in order at their indices, stopping at the first cancellation, failure, expansion or item turned into a map, moving only the index of its own alias |
| LoopScopes.Runner.ProcessRoot | internal/modules/filter/loop.go:217-313 | for a root record: `_metadata` comes back exactly as it was if and only if it was scopable or the loop was not entered; every sighting follows the loops down from it |
| LoopScopes.MetadataWitness | internal/modules/filter/loop.go:363-373 | a loop over no items removes a `_metadata` that is a text |
| LoopScopes.Runner.RunNested | internal/modules/filter/loop.go:316-329 | the chain hands each filter the records of the one before and stops at a failure or at no records, with `_metadata` as it found it |
| LoopScopes.Runner.Process | internal/modules/filter/loop.go:154-212 | each record in turn; an error ends the chain, drops the record or keeps it, as onError says, with `_metadata` as it found it |

## Left out

- SqlMeaning.PostgresPreservesMeaning: `$tag$` dollar quotes are not regions to the code's scanner either, so a `$N` inside one is translated; the lexer modelled here is the code's, not the database's
- SqlTemplate.BuildDescribed: rendering the template and evaluating the expressions are inputs (the rendered text and an evaluator), because they are library code
- TemplateRewrite.InjectRetokenizes: gonja itself is not modelled; the tokenizer is the hand-written one
- SchedulerObjects.Service.ExecutePipeline: one object run alone; interleaving is in the step model of `Scheduler`
- SchedulerDrain.ReplaceExclusion: schedules and timers are left out, so a live cron entry may fire at any moment, and a Register that fails validation changes nothing and is no step
- SchedulerSafety.StopLeavesNothing: the moment the wait group is seen at zero is a premise; a Stop that times out ends before it clears anything
- Delivery.PersistedWatermarkDelivered: assumes a run that is not a dry run, filters that keep records, an output that fails as a whole, and a source that answers with everything newer than the rendered watermark (the epoch for a first execution); the code also saves state after a dry run
- Delivery.StepKeepsInv: the last id is carried but claims nothing: after an empty fetch it is dropped from the state, which replays records and loses none
- DeliveryObjects.StateStore.Save: one pipeline's file; two ids with the same last path element share a file, which is not modelled, and neither are locking and JSON
- RecordStore.Records.Set: slices are cells of their own, so two slices sharing spare capacity of one backing array are not captured, nor is running out of memory on a huge index
- RecordStore.Records.EnsureArray: the array found or created and its growth are one method, as both callers of the source's function grow it next
- CallFilter.Filter.ProcessRecord: building the key, the request and the extraction of the data field are left out; the response is any freshly decoded value; which entries have expired or are evicted is any choice, as the LRU policy is the subject of `Lru`; the branch of sql_call that does not cache an empty result is left out
- Lru.LRUCache.Get: one caller at a time; the mutex is not modelled
- CacheKey.SameKeyIffSameTree: numbers are their canonical literals and strings valid Unicode; a configured key template is left out, as is the key of http_call, whose composite form is not injective
- QueryMerge.MergeQueryParams: the query string alone; url.Parse and the rest of the URL are library code
- Pagination.FetchPageBased: building the request URL and decoding the body are part of the server's answer
- DatabasePagination.FetchLimitOffset: a stable dataset; a table that changes between queries is out of scope
- DatabasePagination.FetchCursor: the cursor column is part of every row; when it is not, the cursor stays nil and a full first page is fetched again and again
- Retry.RetryExecutor.ExecuteWithHooks: delays are exact reals floored to milliseconds, not float64, and elapsed time is left out
- LoopScopes.Runner.ProcessRecord: item values, the scope record and what leaf filters do to them are answers of an arbitrary world; leaf filters are assumed to leave `_metadata` alone, the field not to lie under it, and a top-level record to have no map under `record`
- Error classification, onError parsing, defaults, the registry and module construction: single branches, correct by reading
- HTTP, SOAP, OAuth2, SQL drivers, files, logging, the command line: input and output
- Mapping, scripts, expressions and JSON schema: library code or many small cases
