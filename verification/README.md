# Polaris console: a verified model of its algorithms and state machines

The console of the Polaris service mesh is mostly proxying and user interface, but under it sit
several self-contained algorithms and protocols. This project models them in Dafny, one module a
component, and proves what they promise.

- **Forms.** The value, error and touched trees edited by path (`FormTree`, `FormStore`), the
  alignment of the three trees over whole runs (`FormRuns`), the combined validator and the search
  for its first error (`Validation`), and the dialog loop that submits only valid forms (`Dialog`).
- **Lists and pages.** The paged, searchable list (`SearchList`), the loader of one piece of data
  (`Fetcher`), the two-way sync of page attributes and URL (`RouteSync`), the query string itself
  (`QueryString`, `PercentEncoding`), the column selection of a list (`Selection`, `Columns`).
- **Export.** The CSV writer against a decoder written after RFC 4180 (`Csv`), and the page and
  chunking loops of the export (`Export`).
- **Monitoring.** The Cartesian product of label values and the announced number of queries
  (`Cartesian`, `QuerySets`), the aggregation of request counts and delays (`Metrics`,
  `InterfaceMetrics`).
- **Server support.** Durations with their regular grammar and int64 arithmetic (`Duration`), log
  levels kept in option strings and applied to scopes (`LogOptions`, `LogConfig`).
- **Caching.** Memoising with expiry (`Cacheable`).

`Strings` holds splitting, joining and decimal numerals, `Sequences` what other modules share. Code
that updates objects in place is modelled by classes and methods proved against specification
functions; reducers and folds are functions. A saga is a step function over the store, the live task
and what is in flight: a handler runs to its next wait in one step, `takeLatest` cancels the live
task, and theorems quantify over every sequence of events. What a run must lead to is said in terms
of its events alone, by history functions such as the keyword searched for last. `dafny verify
dfyconfig.toml` checks everything.

## What does not hold

Where the code does less than one would expect of it, the model keeps the code's behaviour, shows
the failing case, and states exactly when the expected property holds.

- A duration of minus one millisecond or less prints as the empty string, which does not parse
  (`Duration.RoundTrip`); every other int64 duration reads back cut to whole milliseconds.
- A reader that, as RFC 4180 allows, drops a final line break loses the last row exactly when the
  table has more than one record and ends in a row of one empty field (`Csv.ReadFileText`).
- The chunking loop of the export never ends if one row alone is too large for a file
  (`Export.EndsIffEachRowFits`, `Export.StuckAtRow`); the loop methods therefore ask for rows that fit.
- Marking an array field itself as touched, or with an error message, makes its next splice throw
  (`FormStore.MarkedArrayThrows`); a splice throws exactly when one of the three trees holds a truthy
  value that is no array there (`FormStore.SpliceThrowsIff`).
- A validator function given at the root of `combineValidators` is never called: a form is valid
  exactly when the validators below the root accept (`Validation.ValidIff`). An array validator throws
  exactly on a truthy value that is no array (`Validation.ThrowsIff`).
- A second `execute` of a dialog while the first one saves leads to two loops and a form saved twice
  (`Dialog.OverlapSavesTwice`). There is one loop at a time, and `submitting` exactly while it saves,
  if and only if executions do not overlap a save and every SUBMIT finds a loop
  (`Dialog.OrderlyRunIffCalm`).
- HIDE during a save goes unheard. When the save then fails the loop waits on, in a visible dialog
  exactly when nothing hid it since it was last shown (`Dialog.FailedSaveWaits`).
- `Fetcher` keeps old data while a new fetch is under way (`Fetcher.StaleWhileFetching`): the data
  answers the stored filter exactly when the load it came from did (`Fetcher.DataAnswersIff`). RESET
  does not cancel a fetch: it lasts exactly when none is live (`Fetcher.ResetStaysIff`).
- A write-back makes attributes and routes equal exactly when the parsers leave the attributes alone
  (`RouteSync.WriteBackAgreesIff`).
- `selectionInsert` keeps the records' order exactly when the id is text (`Selection.InsertedIff`); a
  numeric id is inserted again (`Selection.NumericIdIsRepeated`). An empty selection is not
  remembered (`Columns.EmptySelectionIsForgotten`): a saved one comes back exactly when it is not
  empty or just the required fields are visible (`Columns.RestoredIff`).
- A series labelled `__ALL__` is counted twice in the bucket of all methods: the bucket is the sum of
  the others exactly when such series carry no requests (`InterfaceMetrics.AllIsTheSumIff`).
- `untilChange` never sets the arguments it compares with, so contrary to its comment it never reuses
  a result (`Cacheable.LastCache.Once`).

## Model

| member | source | states |
|---|---|---|
| Duration.MatchIsTheDecomposition | common/time/duration.go:42 | The regular expression, with its overlap of `m` and `ms`, decomposes a string in at most one way, and the backtracking matcher finds that decomposition exactly when there is one |
| Duration.LaterGroupIsNotTaken | common/time/duration.go:42 | Taking a group for an earlier unit than its own always fails later: after `m` has taken the `5m` of `5ms` nothing matches the rest |
| Duration.LimitIsExact | common/time/duration.go:69-72 | The division guard in ParseDuration says exactly that the product of number and unit exceeds an int64 |
| Duration.WrapOfNatural | common/time/duration.go:73-78 | A wrapped sum below 2^64 is negative exactly when it no longer fits, so the sign test finds every overflow the guard does not |
| Duration.Accumulator.constructor | common/time/duration.go:58-62 | The captured variables start out tracking the total 0 |
| Duration.Accumulator.Add | common/time/duration.go:63-79 | One call of the closure, with saturating Atoi and wrapping arithmetic, keeps the captured variables tracking the unbounded total: no error exactly while it fits, and then equal to it |
| Duration.ParseDuration | common/time/duration.go:46-90 | For every string: 0 for "0", an error for the empty and the malformed string, otherwise the unbounded sum of number times unit if it is at most 2^63-1, and the out-of-range error if not |
| Duration.Printer.Append | common/time/duration.go:101-109 | One call of the printing closure leaves the units still to come to complete the same text, years and weeks only when exact |
| Duration.String | common/time/duration.go:92-123 | Prints the digit groups of the milliseconds in the seven units |
| Duration.PrintedTotal | common/time/duration.go:111-120 | The printed units add up to the milliseconds again |
| Duration.NegativePrintsNothing | common/time/duration.go:101-122 | For a negative number of milliseconds every unit prints nothing |
| Duration.RoundTrip | common/time/duration.go:42-123 | For every int64 duration above -1 ms, parsing the printed text gives it back cut to whole milliseconds; every other one prints as "" and fails to parse |
| Strings.NumeralsCompose | common/time/duration.go:67 | Digits count by their place: appending digits multiplies by a power of ten and adds them |
| Strings.NumeralOfOne | common/time/duration.go:67 | The ten digits stand for their numbers |
| Strings.NoLeadingZero | common/time/duration.go:106 | A number is written without leading zeros |
| Duration.RoundTripOfNatural | common/time/duration.go:42-123 | What is printed for a duration that is not negative reads back as the duration less its remainder of milliseconds |
| Duration.WrittenIsReduced | common/time/duration.go:111-120 | Hours are printed below 24, minutes and seconds below 60, milliseconds below 1000: each unit takes all it can |
| Duration.YearsAndWeeksOnlyExact | common/time/duration.go:101-120 | Years are printed exactly when they leave nothing over, and then alone; weeks likewise when years do not; otherwise neither is |
| LogOptions.Options.constructor | common/log/options.go:120-130 | The default level strings |
| LogOptions.Options.SetOutputLevel | common/log/options.go:133-166 | Refuses unknown levels without a change, otherwise overwrites the scope's slot or appends one |
| LogOptions.Options.SetStackTraceLevel | common/log/options.go:194-221 | The same edit without a check of the level |
| LogOptions.Options.GetOutputLevel | common/log/options.go:169-191 | The level in the scope's slot, or the error its entry gives, or that there is none |
| LogOptions.Options.GetStackTraceLevel | common/log/options.go:224-246 | The same for stack trace levels |
| LogOptions.Options.SetLogCallers | common/log/options.go:249-273 | Clears every occurrence of the scope and, when including, fills the first free slot or appends |
| LogOptions.Options.GetLogCallers | common/log/options.go:276-286 | Whether the scope is one of the pieces |
| LogOptions.SlotIsTheEntry | common/log/options.go:142-160 | With one entry per scope, the slot search (bare entry first for the default scope) finds the scope's only entry |
| LogOptions.EntriesSurviveJoin | common/log/options.go:140-163 | Splitting the stored string again gives exactly the edited entries |
| LogOptions.SetThenGet | common/log/options.go:133-191 | After one set the scope answers with the new level, every other scope as before, value or error alike, and there is still one entry per scope |
| LogOptions.LevelsAreAMap | common/log/options.go:133-191 | Over every run of SetOutputLevel from "" or the default: at most one entry per scope and every scope answers with the last level accepted for it, or as at the start |
| LogOptions.CallersAreASet | common/log/options.go:249-286 | Setting callers changes the membership of the named scope only, and as asked |
| LogOptions.LevelNames | common/log/options.go:53-69 | The two tables of level names are inverse to each other |
| LogOptions.EntryForms | common/log/options.go:288-309 | An entry without a colon is a level of the default scope, one with a colon of the scope before it; unknown levels and further colons are told apart as errors |
| LogOptions.NoEntryNoLevel | common/log/options.go:169-191 | A scope is said to have no level exactly when it has no entry |
| LogConfig.Scope.SetOutputLevel | common/log/scope.go:290-292 | Changes that setting of the scope and no other |
| LogConfig.Scope.SetStackTraceLevel | common/log/scope.go:300-302 | Changes that setting of the scope and no other |
| LogConfig.Scope.SetLogCallers | common/log/scope.go:310-312 | Changes that setting of the scope and no other |
| LogConfig.ProcessLevels | common/log/config.go:249-271 | The scope objects end with the settings, and the call with the error, that processing the entries in order gives, whatever order the map of scopes is walked in |
| LogConfig.UpdateScopes | common/log/config.go:207-245 | Output levels, stack trace levels, then callers, stopping at the first error and keeping what was already set |
| LogConfig.AppliedLevelsAreTheOptions | common/log/config.go:249-271 | When every entry applies, each registered scope ends with exactly the level GetOutputLevel reports for it, and a scope without an entry keeps its own |
| LogConfig.SucceedsIffAllApply | common/log/config.go:249-271 | Without an override entry, processing succeeds exactly when every entry names a registered scope and a level |
| LogConfig.OverrideDecides | common/log/config.go:259-264 | An unregistered `all` that is reached gives every scope its level; later entries, malformed ones included, have no effect |
| LogConfig.AppliedCallersAreTheOptions | common/log/config.go:221-244 | When callers apply, a scope logs its caller if it did before, is listed, or `all` is listed |
| LogConfig.WithSetsOne | common/log/scope.go:290-302 | The two level setters set different levels, each its own, and leave the rest |
| LogConfig.OverrideReachesAll | common/log/config.go:259-264 | An override sets the level of every scope, and that level only |
| LogConfig.FailureStops | common/log/config.go:249-271 | The first entry that does not apply ends the processing with its own complaint; the entries before it stay applied, those after it are not |
| LogConfig.CallersSucceedIff | common/log/config.go:221-244 | Without `all` among them, callers apply exactly when every scope named is registered |
| LogConfig.UpdatedScopesAreTheOptions | common/log/config.go:207-245 | After a whole update without error each scope has the output level, the stack trace level and the callers flag of its own option string, and the update fails only for a caller that is not registered |
| LogConfig.FailedUpdateStops | common/log/config.go:207-245 | Output levels that fail leave stack traces and callers alone, stack traces that fail leave the callers alone |
| FormTree.PutGet | web/src/polaris/common/ducks/Form.ts:686-726 | Picking what was updated gives the value put there |
| FormTree.PutBack | web/src/polaris/common/ducks/Form.ts:696-726 | Putting back what is there gives the same tree, but a falsy root gives way to an empty object or array |
| FormTree.FalsyAre | web/src/polaris/common/ducks/Form.ts:702-704 | The falsy values are the missing one, the empty text, 0 and `false` |
| FormTree.UpdateInside | web/src/polaris/common/ducks/Form.ts:696-726 | Updating below a path is updating, at the rest of the path, what the path leads to |
| FormTree.UpdateElsewhere | web/src/polaris/common/ducks/Form.ts:686-726 | An update is invisible from every disjoint path |
| FormTree.SpliceInside | web/src/polaris/common/ducks/Form.ts:729-738 | A splice below a path splices what the path leads to |
| FormTree.SpliceElsewhere | web/src/polaris/common/ducks/Form.ts:729-738 | A splice is invisible from every disjoint path |
| FormTree.DeleteInside | web/src/polaris/common/ducks/Form.ts:741-767 | A deletion below a path deletes in what the path leads to |
| FormTree.ApplyElsewhere | web/src/polaris/common/ducks/Form.ts:686-767 | Every reducer's edit is invisible from all paths disjoint from its footprint: the array for a deletion by index, the path itself otherwise |
| FormTree.SpliceIs | web/src/polaris/common/ducks/Form.ts:729-738 | A splice keeps what is before the index, puts the values there, and goes on after the items removed, clamped to the list |
| FormStore.SplicedRows | web/src/polaris/common/ducks/Form.ts:119-194 | Splicing the value array, and the error and touched arrays with placeholders, splices the items as wholes, also when the latter are shorter and `splice` clamps |
| FormStore.SpliceAction | web/src/polaris/common/ducks/Form.ts:107-198 | SPLICE_VALUE at a path keeps the three trees aligned there and splices its rows, inserted ones clean |
| FormStore.SpliceActionRows | web/src/polaris/common/ducks/Form.ts:729-738 | In plain slices: within the array SPLICE_VALUE leaves the rows before the index, the new ones clean, and the rows after those removed; beyond its end the new ones are appended; a missing array is filled up to the index first |
| FormStore.DeleteActionRows | web/src/polaris/common/ducks/Form.ts:741-754 | DELETE_VALUE of an item leaves all the other rows in order, and nothing changes for an index beyond the end |
| FormStore.DeleteActionRemoves | web/src/polaris/common/ducks/Form.ts:755-767 | A field deleted by name is gone from all three trees, and every other field stays as it is |
| FormStore.SetActionSets | web/src/polaris/common/ducks/Form.ts:107-198 | Setting a value, an error or a flag puts it at its path in its own tree and leaves the other two trees alone |
| FormStore.WholeActionsSet | web/src/polaris/common/ducks/Form.ts:107-198 | Setting all values clears the marks exactly when it resets; merging flags replaces the named ones and keeps the others |
| FormStore.DeleteIsSplice | web/src/polaris/common/ducks/Form.ts:741-754 | DELETE_VALUE of an item is SPLICE_VALUE of one item at its index, in all three trees |
| FormStore.InsideAction | web/src/polaris/common/ducks/Form.ts:107-198 | A change below an item changes that row alone |
| FormStore.OutsideAction | web/src/polaris/common/ducks/Form.ts:107-198 | A change apart from the array leaves its rows and its alignment alone |
| FormStore.ReplacedInvalids | web/src/polaris/common/ducks/Form.ts:139-167 | Replacing the error tree keeps the trees aligned at an array exactly when the new one has an array there, or nothing, and no error beyond the items; then only the errors change |
| FormStore.SpliceThrowsIff | web/src/polaris/common/ducks/Form.ts:729-738 | SPLICE_VALUE throws exactly when one of the three trees holds a truthy value that is no array at the path, and is otherwise the reducers' splice |
| FormStore.MarkedArrayThrows | web/src/polaris/common/ducks/Form.ts:452-469 | After an array field itself is marked as touched, or with an error message, every splice of it throws |
| FormRuns.InitiallyShown | web/src/polaris/common/ducks/Form.ts:107-198 | Before anything is loaded every array is missing and nothing is marked |
| FormRuns.ReplacingKeepsAlignedIff | web/src/polaris/common/ducks/Form.ts:107-198 | Setting all values without a reset, all errors, all flags, some flags, or any of these at the array or above it, keeps the trees aligned exactly when the new tree has an array there, or nothing, and no marks lie beyond the items |
| FormRuns.ShownStep | web/src/polaris/common/ducks/Form.ts:107-198 | Every operation on the form does to the identified items what it is meant to, the three trees still showing them |
| FormRuns.RunShowsTable | web/src/polaris/common/ducks/Form.ts:107-258 | Over every run of edits, marks and touches of items, of the array, of what is above it and of the whole form, splices, deletions and resets the three trees show one table of items, each with its own error and flag, as long as each step meets that condition |
| FormRuns.MarksStayWithItems | web/src/polaris/common/ducks/Form.ts:616-633 | Over every run that sets no marks, values being edited, replaced, spliced and deleted, each error and flag stays with the item it belongs to, and new items have none |
| FormRuns.SpliceTableItems | web/src/polaris/common/ducks/Form.ts:594-634 | Which items a splice leaves: the same ones before the index and after those removed, and new ones between |
| FormRuns.DeleteTableItems | web/src/polaris/common/ducks/Form.ts:594-634 | Deleting an item leaves all the others, in order |
| FormRuns.MarkingKeepsItems | web/src/polaris/common/ducks/Form.ts:107-198 | Edits, marks and touches neither add, drop nor reorder items |
| FormRuns.RunAllTouched | web/src/polaris/common/ducks/Form.ts:199-208 | Over every run the switch that touches everything stands as last set, or off after a later reset |
| Validation.GetFirstInvalid | web/src/polaris/common/ducks/Form.ts:774-801 | The first error, in traversal order, of the whole report or of the given keys; none if there is none |
| Validation.AllKeysAllErrors | web/src/polaris/common/ducks/Form.ts:785-799 | Asking for all keys of a report is asking for none in particular |
| Validation.MissingKeyNoError | web/src/polaris/common/ducks/Form.ts:785-799 | A key the report does not have contributes no error |
| Validation.VerdictsAreLeaves | web/src/polaris/common/ducks/Form.ts:361-408 | The verdicts in a report are exactly those of the leaf validators, each on the value and parent at its own path |
| Validation.ParentIs | web/src/polaris/common/ducks/Form.ts:379-384 | A validator's parent is the value one step up, an empty object standing in for a falsy one |
| Validation.VerdictsOrdered | web/src/polaris/common/ducks/Form.ts:379-406 | They come in the order of the rule's keys and the array's items |
| Validation.BeforeIsStrict | web/src/polaris/common/ducks/Form.ts:379-406 | That order is strict: no two positions come before each other |
| Validation.ApplyErrors | web/src/polaris/common/ducks/Form.ts:361-408 | The combined report holds the errors of the leaves' verdicts, all of them, in that order |
| Validation.ValidIff | web/src/polaris/common/ducks/Form.ts:361-408 | No error is found exactly when every leaf validator below the root accepts the value at its position; a function at the root is ignored |
| Validation.FirstObjection | web/src/polaris/common/ducks/Form.ts:774-801 | Otherwise the error found is the first of the leaf that precedes all other objecting leaves |
| Validation.ThrowsIff | web/src/polaris/common/ducks/Form.ts:364-376 | Validation throws exactly when an array validator meets a truthy value that is no array |
| Dialog.StepKeepsInv | web/src/polaris/common/ducks/DialogPure.ts:132-182 | Every event keeps each loop's record: only valid forms were submitted and all calls but the last failed |
| Dialog.RunSubmitsOnlyValid | web/src/polaris/common/ducks/FormDialog.ts:62-104 | Over every run, with any overlap of executions, edits and saves, `onSubmit` gets only forms whose error tree has no error, and `execute` returns true exactly after its last call succeeded |
| Dialog.RunSubmitsCurrentForm | web/src/polaris/common/ducks/FormDialog.ts:70-75 | Over every run each call of `onSubmit` gets the form as the events before some SUBMIT had left it |
| Dialog.CallsBegin | web/src/polaris/common/ducks/DialogPure.ts:148-161 | A call begins, in each waiting loop, exactly when SUBMIT comes and the form has no error; no other event begins or rewrites one |
| Dialog.RefusedSubmit | web/src/polaris/common/ducks/FormDialog.ts:92-103 | A SUBMIT of a form with errors touches everything, shows the first error, and changes neither form nor loops |
| Dialog.SubmittedValuesAreAccepted | web/src/polaris/common/ducks/FormDialog.ts:92-103 | Where the error tree is the combined validators' report, every leaf validator below the root accepted the values any run submitted |
| Dialog.VisibleHasLoop | web/src/polaris/common/ducks/DialogPure.ts:132-182 | Over every run without a SHOW from elsewhere, a visible dialog has a loop that is waiting or saving |
| Dialog.VisibleIffShownLast | web/src/polaris/common/ducks/DialogPure.ts:54-63 | Over every run the dialog is visible exactly when, of all the events that showed or hid it, the last one showed it |
| Dialog.RunAsTold | web/src/polaris/common/ducks/DialogPure.ts:32-83 | Over every run the form, the data shown and the disabled flag are those of the last event that set each, and there is one loop for every execution, with its own data |
| Dialog.StepTells | web/src/polaris/common/ducks/DialogPure.ts:142-176 | SHOW and HIDE end the loops that wait, with false; the error shown is that of the last refused SUBMIT or failed save, the default one for an empty error, and none after a SUBMIT that went through |
| Dialog.FailedSaveWaits | web/src/polaris/common/ducks/DialogPure.ts:162-176 | A loop whose save fails waits again with its data, an error shown, whatever came in between; it waits in a visible dialog exactly when no HIDE and no other loop's success came after the last SHOW or execution |
| Dialog.OrderlyRunIffCalm | web/src/polaris/common/ducks/DialogPure.ts:29-85 | Over every run: one loop at most is live and `submitting` holds exactly while it saves, all along, if and only if no execution starts during a save and every SUBMIT finds a loop |
| Dialog.OverlapSavesTwice | web/src/polaris/common/ducks/DialogPure.ts:148-178 | With an overlap, one SUBMIT saves the same form in two loops at once |
| SearchList.StepKeepsInv | web/src/polaris/common/ducks/AbstractSearchableList.ts:106-199 | Every event keeps the list a beginning of one query's answer and the live search at a whole number of its pages |
| SearchList.NeverAMix | web/src/polaris/common/ducks/AbstractSearchableList.ts:279-368 | Over every run the list shown is a prefix of the server's answer to the stored param and keyword, never a mix, and the whole of it once `nomore` is set |
| SearchList.RunAsksLast | web/src/polaris/common/ducks/AbstractSearchableList.ts:268-323 | Over every run a live search is for the parameter of the last LOAD and the keyword of the last SEARCH, or the default keyword if LOAD or RELOAD came later |
| SearchList.SearchStarts | web/src/polaris/common/ducks/AbstractSearchableList.ts:106-199 | SEARCH, LOAD and RELOAD empty the list and start with the first page for their keyword |
| SearchList.ArrivalShowsWhatWasAsked | web/src/polaris/common/ducks/AbstractSearchableList.ts:325-362 | In every reachable state an arriving page leaves the list showing just the pages fetched of the server's answer to what was last asked, with its total, and `nomore` exactly at its end |
| SearchList.LoadingMore | web/src/polaris/common/ducks/AbstractSearchableList.ts:183-199 | MORE changes nothing but the loading mark, which typing and a failed page leave in place; typing changes the pending keyword alone |
| SearchList.FallsShort | web/src/polaris/common/ducks/AbstractSearchableList.ts:357-362 | A number of pages falls short of the answer exactly while it is below the rounded-up quotient |
| SearchList.PagesAreBounded | web/src/polaris/common/ducks/AbstractSearchableList.ts:325-367 | No search fetches more than max(1, ceil(total/pageSize)) pages, and the last of them sets `nomore` |
| SearchList.FailuresLoseNothing | web/src/polaris/common/ducks/AbstractSearchableList.ts:363-367 | A page that fails any number of times changes nothing but that it is asked for again |
| SearchList.AskingFinishes | web/src/polaris/common/ducks/AbstractSearchableList.ts:325-367 | Asking for exactly the missing pages, through any failures, brings the server's whole answer and `nomore` |
| Fetcher.InitialInv | web/src/polaris/common/ducks/Fetcher.ts:37-81 | The initial store, nothing fetched, satisfies the invariant |
| Fetcher.StepKeepsInv | web/src/polaris/common/ducks/Fetcher.ts:37-81 | Every event keeps: the live fetch is the last started and asks for the stored filter, data and error are not both set, loading only while a fetch lives |
| Fetcher.RunKeepsInv | web/src/polaris/common/ducks/Fetcher.ts:119-197 | Over every run, loads ending in any order: when no fetch is live the store shows the result of the latest one, for the stored filter, or was reset since |
| Fetcher.RunDoesAsTold | web/src/polaris/common/ducks/Fetcher.ts:37-143 | Over every run the fetches started are the FETCHes plus the RELOADs after the first, the stored filter is the last FETCH's, and loading is on exactly while a fetch is live and no RESET came since it started |
| Fetcher.ReloadFetchesAgain | web/src/polaris/common/ducks/Fetcher.ts:134-161 | RELOAD starts the same fetch the last FETCH would start again, keeping the error until it is answered |
| Fetcher.EarlyReloadIsIgnored | web/src/polaris/common/ducks/Fetcher.ts:119-143 | RELOAD before the first FETCH does nothing |
| Fetcher.OnlyTheLatestInstalls | web/src/polaris/common/ducks/Fetcher.ts:161-196 | A load that ends is installed, as it is, exactly when its fetch is the latest one; any other changes nothing |
| Fetcher.LoadLeaves | web/src/polaris/common/ducks/Fetcher.ts:184-196 | The latest load leaves its data and no error, or no data and its error, the default one for an empty error, and loading off; the filter is the one it answers |
| Fetcher.RunKeepsSourced | web/src/polaris/common/ducks/Fetcher.ts:42-52 | Over every run the data shown is what some load ended with, the latest one once no fetch is live |
| Fetcher.DataAnswersIff | web/src/polaris/common/ducks/Fetcher.ts:37-81 | Over every run, with fetches overlapping or not: the data shown is the server's for the stored filter exactly when the load it came from asked for something with the same answer, with distinct answers for the filter itself; always so when no fetch is live |
| Fetcher.StaleWhileFetching | web/src/polaris/common/ducks/Fetcher.ts:41-52 | A run that shows the data of one filter under another, the fetch for that one being under way |
| Fetcher.ResetStaysIff | web/src/polaris/common/ducks/Fetcher.ts:42-46 | In every reachable state: RESET empties the store, and it stays empty through whatever ends until the next FETCH or RELOAD exactly when no fetch is live |
| RouteSync.ChangesAre | web/src/polaris/common/ducks/Route.ts:231-251 | The changes are exactly the parameters whose value is new or different |
| RouteSync.StepKeepsInv | web/src/polaris/common/ducks/Page.ts:211-257 | Every event keeps each parameter in step: equal up to its parser, or about to be fed, or a write-back pending |
| RouteSync.WriteBackAgreesIff | web/src/polaris/common/ducks/Route.ts:150-156 | A write-back makes routes and attributes equal exactly when the parsers leave every attribute alone |
| RouteSync.RunAgrees | web/src/polaris/common/ducks/Page.ts:211-257 | Given idempotent parsers that leave the pages' attribute values alone: in every interleaving, once initialised the attributes equal the routes, and the URL last written, unless a write-back or a feed is under way |
| RouteSync.RunIsBounded | web/src/polaris/common/ducks/Page.ts:217-256 | Over every run the page takes at most one action a parameter and an end for each new URL, and one write-back for each attribute change: no ping-pong |
| RouteSync.NeverStuck | web/src/polaris/common/ducks/Page.ts:211-257 | The page has a step of its own to take exactly while something is under way |
| RouteSync.SetFeedsIff | web/src/polaris/common/ducks/Route.ts:226-265 | A new URL feeds the attributes exactly when its parsed parameters differ from the routes |
| RouteSync.SetRoutesIs | web/src/polaris/common/ducks/Route.ts:156-160 | A new URL leaves every route the parser applied twice to its parameter, and the feed holds exactly the parameters whose value changed, each once |
| RouteSync.UrlIsFed | web/src/polaris/common/ducks/Page.ts:217-238 | Once the URL's feed has ended, with no change of attributes and no write-back since, each attribute holds the URL's parsed value if that changed the route, and what it held before if not |
| RouteSync.LastUrlHolds | web/src/polaris/common/ducks/Page.ts:217-238 | Over every run that keeps attributes fixed by their parsers and had no write-back pending when the last URL came: after its feed every route and attribute holds that URL's parsed value |
| RouteSync.ChangeIsWrittenBack | web/src/polaris/common/ducks/Page.ts:241-256 | A change of attributes is pending until written back; then every route is the parsed attribute, the attributes are as changed, and the URL gets those routes |
| RouteSync.EchoIsSilent | web/src/polaris/common/ducks/Route.ts:203-208 | The echo of a URL the page wrote itself changes nothing, its values being ones the parsers leave alone |
| RouteSync.InitializedIff | web/src/polaris/common/ducks/Page.ts:217-238 | Over every run the page is marked as initialised exactly when a feed has ended after some URL that said something else than the routes |
| RouteSync.FirstUrlFeeds | web/src/polaris/common/ducks/Route.ts:226-265 | With at least one parameter the first URL, coming before any write-back, always feeds |
| RouteSync.FirstUrlInitializes | web/src/polaris/common/ducks/Page.ts:189-195 | In every run that begins with the first URL the page is initialised exactly when a feed has ended |
| QueryString.Parse | web/src/polaris/common/ducks/Route.ts:66-87 | Parsing gives every parameter its parsed text or parsed default, later pieces winning, or throws on a malformed escape |
| QueryString.MalformedPiece | web/src/polaris/common/ducks/Route.ts:69-72 | One malformed piece makes the whole parse throw |
| QueryString.PairIsPlain | web/src/polaris/common/ducks/Route.ts:92-99 | A written pair holds no separator of pairs and reads back as its name and text |
| QueryString.RoundTrip | web/src/polaris/common/ducks/Route.ts:66-102 | For every assignment of values to all parameters, parsing the base followed by the written query gives it back, defaults being left out |
| QueryString.ParsedIs | web/src/polaris/common/ducks/Route.ts:66-87 | For every URL: parsing throws exactly when a piece is malformed, and else each parameter has the parsed text of the last piece of its name, or its parsed default without one |
| QueryString.PieceForms | web/src/polaris/common/ducks/Route.ts:69-72 | A piece without `=` has the text `undefined`, and a second `=` ends the text |
| QueryString.QueryForms | web/src/polaris/common/ducks/Route.ts:64-68 | The query stands between the first and the second `?` |
| QueryString.PairsSplit | web/src/polaris/common/ducks/Route.ts:92-102 | Parameters are written in their order, those without a value not at all |
| QueryString.AppearsIff | web/src/polaris/common/ducks/Route.ts:92-99 | A parameter is written exactly when it has a value that is not its default or is always visible, and then as its text |
| QueryString.MalformedIff | web/src/polaris/common/ducks/Route.ts:69-72 | Parsing throws exactly when some piece has a malformed escape |
| PercentEncoding.DecodeEncode | web/src/polaris/common/ducks/Route.ts:71-98 | Decoding undoes percent-encoding (RFC 3986, section 2.1) for every string, through UTF-8 of one to four octets |
| PercentEncoding.DecodesIff | web/src/polaris/common/ducks/Route.ts:71-72 | For all strings and texts: a string decodes to a text exactly when it spells it, each character as itself or by the escapes of its UTF-8 octets (RFC 3629), needed or not; so it is malformed exactly when it spells none |
| PercentEncoding.HexValues | web/src/polaris/common/ducks/Route.ts:71-72 | Hexadecimal digits are read in either case |
| PercentEncoding.EncodedIsPlain | web/src/polaris/common/ducks/Route.ts:98 | Encoded text holds no separator |
| PercentEncoding.EscapedAre | web/src/polaris/common/ducks/Route.ts:98 | The characters escaped, one by one |
| PercentEncoding.UnchangedIff | web/src/polaris/common/ducks/Route.ts:98 | Text is written as it is exactly when all of it is unreserved |
| PercentEncoding.EncodedLength | web/src/polaris/common/ducks/Route.ts:98 | Unreserved characters stand for themselves, every other takes three characters for each of its one to four octets |
| Csv.Format | web/src/polaris/common/components/csv.ts:45-86 | Writes the extra header line, if any, the column names and the rows as records joined by CRLF |
| Csv.ReadEncodedField | web/src/polaris/common/components/csv.ts:23-29 | An escaped field reads back as itself, whatever commas, quotes and line breaks it holds |
| Csv.DecodeText | web/src/polaris/common/components/csv.ts:23-86 | For every table with at least one column the RFC 4180 decoder gives back every record and field |
| Csv.TextIsInjective | web/src/polaris/common/components/csv.ts:45-86 | Different tables are written differently |
| Csv.QuotedIff | web/src/polaris/common/components/csv.ts:23-29 | A field is quoted exactly when it holds a quote, a comma or a line break |
| Csv.FormattedReadsBack | web/src/polaris/common/components/csv.ts:45-86 | What is written reads back as the header line of labels and values, if any, the column names, and the rows |
| Csv.ReadFileText | web/src/polaris/common/components/csv.ts:85 | A reader that drops a final line break gives the table back exactly when it does not end in a row of one empty field |
| Export.SavedSize | web/src/polaris/common/components/csv.ts:110-123 | The encoded length of a file is that of its mark, its header, and what each row adds |
| Export.SmallerSliceFits | web/src/polaris/common/components/csv.ts:119-127 | If a slice is too large so is every larger one around it |
| Export.RefusedIff | web/src/polaris/common/components/csv.ts:97-127 | Only Chrome refuses a file, exactly when prefix, mark, header and rows encode to more than 2 MB |
| Export.BomCosts | web/src/polaris/common/components/csv.ts:115-117 | A byte order mark is added, at nine characters, unless the text begins with one |
| Export.FetchAll | web/src/polaris/common/ducks/GridPage.ts:495-512 | The page loop gathers exactly the server's list |
| Export.TurnKeepsSafe | web/src/polaris/common/ducks/GridPage.ts:538-551 | Each turn keeps the saved slices equal to the rows exported so far, and either exports more or tries a strictly shorter, nonempty slice next |
| Export.TriesAreTwoThirds | web/src/polaris/common/ducks/GridPage.ts:538-543 | The first try takes all rows left, each next one two thirds of the refused slice, rounded down |
| Export.TurnSavesOrNotes | web/src/polaris/common/ducks/GridPage.ts:544-551 | A slice that fits is saved as one more file and the next begins after it, the loop ending at the last row; a refused one is only noted |
| Export.SaveChunks | web/src/polaris/common/ducks/GridPage.ts:529-551 | The loop ends; the saved files, each of which fits, concatenate to the rows, none lost or repeated, and are counted right |
| Export.DoExport | web/src/polaris/common/ducks/GridPage.ts:491-551 | What the whole export saves, file after file, is the server's list |
| Export.StuckAtRow | web/src/polaris/common/ducks/GridPage.ts:538-551 | The loop never gets past a row that is too large alone |
| Export.EndsIffEachRowFits | web/src/polaris/common/ducks/GridPage.ts:538-551 | The chunking loop ends exactly when every row fits a file of its own, or with no rows the header does |
| Cartesian.CombineVector | web/src/polaris/monitor/combvec.ts:1-21 | Returns the tuples of all choices in order, nothing for an empty list, and leaves of its argument only the last row |
| Cartesian.TuplesCount | web/src/polaris/monitor/combvec.ts:11-20 | Every tuple occurs as often as it can be chosen, whatever repeats the rows hold |
| Cartesian.TuplesAreTheChoices | web/src/polaris/monitor/combvec.ts:1-21 | From rows without repeats every choice, last element from the first row, comes exactly once and nothing else comes |
| Cartesian.TuplesLength | web/src/polaris/monitor/combvec.ts:1-21 | There are as many tuples as the product of the lengths |
| Cartesian.TuplesAt | web/src/polaris/monitor/combvec.ts:11-20 | The order of the tuples: all choices of the other rows for the first row's first value, then for its second, and so on |
| QuerySets.SearchPreCheck | web/src/polaris/monitor/PageDuck.ts:170-198 | The search goes on exactly when fewer than 50 queries are announced or the user confirms |
| QuerySets.Search | web/src/polaris/monitor/PageDuck.ts:335-390 | Builds the query sets of every metric with every choice of label values, in order, if the check lets it |
| QuerySets.SetsAsAnnounced | web/src/polaris/monitor/PageDuck.ts:175-182 | For every filter configuration the number of query sets built equals the number announced |
| QuerySets.SetsCount | web/src/polaris/monitor/PageDuck.ts:345-388 | A query set occurs as often as its metric is named times the ways its labels can be chosen |
| QuerySets.EachQueryOnce | web/src/polaris/monitor/PageDuck.ts:345-388 | Without repeats in the configuration each query is made exactly once and no other is |
| QuerySets.AnnouncedIs | web/src/polaris/monitor/PageDuck.ts:175-183 | The number announced is that of the metrics times one factor for every filter that has values |
| QuerySets.QueriesOfTheFilters | web/src/polaris/monitor/PageDuck.ts:345-388 | In terms of the filters: without repeats a query set is built exactly once if it names a metric asked for and one value of each filter that has any, and no other is built |
| Selection.FindInsertPosition | web/src/polaris/common/duckComponents/FieldManager.tsx:56-71 | The two-index loop computes the recursive position |
| Selection.FalsyIds | web/src/polaris/common/duckComponents/FieldManager.tsx:63 | The loop stops at an empty text or 0 |
| Selection.SelectionInsert | web/src/polaris/common/duckComponents/FieldManager.tsx:76-97 | Inserts the id as text at that position unless it is selected |
| Selection.SelectionRemove | web/src/polaris/common/duckComponents/FieldManager.tsx:99-112 | Removes the first occurrence of the id as text, then every occurrence of the id itself |
| Selection.FoundByRecord | web/src/polaris/common/duckComponents/FieldManager.tsx:56-71 | The position is right: inserting there gives the records filtered by one more checked item |
| Selection.InsertedIff | web/src/polaris/common/duckComponents/FieldManager.tsx:76-97 | Inserting gives the filtered records exactly when the item's id is text |
| Selection.RemovedIsKept | web/src/polaris/common/duckComponents/FieldManager.tsx:99-112 | Removing gives the records filtered by one checked item less, for text and numeric ids |
| Selection.RunIsFilter | web/src/polaris/common/duckComponents/FieldManager.tsx:56-112 | Over any run of clicks on items with text ids the selection is the record list filtered by what is checked |
| Selection.NumericIdIsRepeated | web/src/polaris/common/duckComponents/FieldManager.tsx:84-94 | A numeric id already selected as text is selected once more |
| Columns.CustomFields.constructor | web/src/polaris/common/duckComponents/FieldManager.tsx:179-186 | The settings start with what is saved under their key |
| Columns.CustomFields.SetSelection | web/src/polaris/common/duckComponents/FieldManager.tsx:187-191 | Keeps the selection and saves it, joined, under a nonempty key |
| Columns.CustomFields.GetInitSelection | web/src/polaris/common/duckComponents/FieldManager.tsx:192-221 | The saved visible fields with the required ones inserted, or with nothing saved all visible fields |
| Columns.SavedIsRestored | web/src/polaris/common/duckComponents/FieldManager.tsx:187-221 | A nonempty selection comes back from the saved string as the fields checked and visible, plus the required ones, in the fields' order |
| Columns.DisplayedAreChecked | web/src/polaris/common/duckComponents/FieldManager.tsx:222-230 | The fields displayed are those selected, in the fields' order, whatever order the selection is in |
| Columns.EmptySelectionIsForgotten | web/src/polaris/common/duckComponents/FieldManager.tsx:194-219 | An empty selection comes back as all visible fields |
| Columns.RestoredIff | web/src/polaris/common/duckComponents/FieldManager.tsx:187-221 | A saved selection comes back as the fields checked and visible plus the required ones exactly when it is not empty or the visible fields are just the required ones |
| Metrics.Metric.CalSuccessRate | common/model/metrics.go:48-52 | Sets the rate to succeeded over total when there are requests, else leaves it |
| Metrics.Metric.Add | handlers/metrics.go:309-321 | Adds one series' requests to the counter of its result, to the failed ones if it is a failure, and to the total, and updates the rate |
| Metrics.AddUp | handlers/metrics.go:299-307 | The sum of the samples that are numbers |
| Metrics.SumSplit | handlers/metrics.go:299-307 | The sum of samples laid end to end is the sum of their sums |
| Metrics.SumOne | handlers/metrics.go:299-307 | A number counts itself, `NaN` and no sample nothing |
| Metrics.RequestTotals | handlers/metrics.go:281-326 | One distinct record per key; each counter is the sum of the key's samples in its class, and the rate matches the final counters |
| Metrics.NoSampleLost | handlers/metrics.go:282-322 | No request is lost or counted twice: the totals of all keys make up the sum of all samples of all series laid end to end |
| Metrics.PartsCountTheSame | handlers/metrics.go:282-322 | A series reported in two parts with the same labels changes no counter |
| Metrics.Conserved | handlers/metrics.go:309-320 | For nonnegative samples the classes of failures add up to the failed requests, which are at most the total |
| Metrics.RateIsAFraction | common/model/metrics.go:48-52 | Then the rate lies between 0 and 1 and limited plus circuit-broken requests do not exceed the failed |
| Metrics.OrderIsIrrelevant | handlers/metrics.go:282-322 | The counters do not depend on the order of the series |
| InterfaceMetrics.Count | handlers/metrics.go:582-592 | Adds to the method's record and to the one of all methods, twice when they are the same record |
| InterfaceMetrics.RequestTotals | handlers/metrics.go:550-597 | A record for each method, unlabelled ones under `__UNKNOWN__`, and always one for all; each holds its requests per class of result |
| InterfaceMetrics.NamedRequests | handlers/metrics.go:555-565 | Series without a method count under `__UNKNOWN__` along with those labelled so, all others under their own label |
| InterfaceMetrics.AllAgainstOthers | handlers/metrics.go:567-592 | The bucket of all methods is the sum of the others plus twice the requests labelled `__ALL__`, per class |
| InterfaceMetrics.AllIsTheSumIff | handlers/metrics.go:567-592 | It is the sum of the others exactly when no requests are labelled `__ALL__` |
| InterfaceMetrics.RequestTimeout | handlers/metrics.go:625-679 | Each method has the mean of its last series, and all methods the mean of all samples, 0 without samples |
| InterfaceMetrics.AllIsTheWeightedMean | handlers/metrics.go:629-677 | The delay of all methods is the mean of the series' means weighted by their samples |
| InterfaceMetrics.MeanIs | handlers/metrics.go:665-677 | A mean is the sum of the samples over their number, 0 without samples |
| InterfaceMetrics.OneDelay | handlers/metrics.go:645-656 | A number counts as one sample with its own value, `NaN` as none |
| InterfaceMetrics.PartsAverageTheSame | handlers/metrics.go:645-677 | A series reported in two parts changes nothing in the delay of all methods |
| InterfaceMetrics.LatestIs | handlers/metrics.go:665-669 | A series gives its method's delay as long as no later series is of that method |
| InterfaceMetrics.Join | handlers/metrics.go:456-488 | The records with both counts and a delay get the delay; the two special ones come apart, the rest once each, in whatever order the map is walked |
| Cacheable.TtlCache.Cache | web/src/polaris/common/helpers/cacheable.ts:43-52 | Stores a truthy result with its expiry timer and reads the entry |
| Cacheable.TtlCache.Once | web/src/polaris/common/helpers/cacheable.ts:25-31 | Runs the function only when nothing is stored, and answers what is stored then |
| Cacheable.TtlCache.Advance | web/src/polaris/common/helpers/cacheable.ts:47-49 | As time passes the timers that are due delete their entries |
| Cacheable.RunKeepsInv | web/src/polaris/common/helpers/cacheable.ts:41-53 | Over every timed run each entry has exactly one pending expiry and is the function's result of `ms` before it |
| Cacheable.AnswersAreRecent | web/src/polaris/common/helpers/cacheable.ts:11-53 | Every answer is what a call of the function on the same arguments gave at most `ms` ago |
| Cacheable.EntryLives | web/src/polaris/common/helpers/cacheable.ts:41-53 | Until its expiry an entry stays as it is and the function does not run for its key, whatever else is called |
| Cacheable.EntryExpires | web/src/polaris/common/helpers/cacheable.ts:47-49 | At its expiry the entry is gone and the next call runs the function again |
| Cacheable.AtMostOncePerExpiry | web/src/polaris/common/helpers/cacheable.ts:11-53 | Over every timed run two runs of the function for one key, the first with a result, are at least `ms` apart |
| Cacheable.TimePasses | web/src/polaris/common/helpers/cacheable.ts:47-49 | The clock of a run is what its waits add up to |
| Cacheable.LastCache.Cache | web/src/polaris/common/helpers/cacheable.ts:60-69 | Keeps the last result, and gives it back only for arguments equal to the ones remembered |
| Cacheable.LastCache.Once | web/src/polaris/common/helpers/cacheable.ts:56-69 | The remembered arguments are never set, so every call runs the function |

## Left out

- HTTP handlers, proxying, JWT, discovery and Prometheus calls: the metrics start from the decoded series.
- React components, dialog rendering, tips and column renderers: user interface only.
- The saga library is not part of this model: a handler is taken to run to its next wait in one step, `takeLatest` to cancel the live task, and its error handling to keep the watchers alive.
- Interleavings inside a handler, such as a RESET dispatched between SEARCH_DONE and SET_LIST by a reaction to the former.
- `RouteDuck.watch` and `RouteDuck.perform`: the SET they deliver and the routes handed to the writer are modelled, browser history is not; `shouldReplace` only chooses between replacing and pushing.
- RouteSync: the route store starts empty, as its reducer's default says (what the base class, not part of this model, does with `initialState` is left out); parameters are compared by value, each creator is taken to set exactly its own attribute, and a new URL or the end of the delay is taken to arrive only after the feeding actions of the last URL have been put.
- QueryString.RoundTrip: assumes what its `requires` say (distinct keys and names, nonempty names, each parameter's parser undoing its writer and fixing its default); names of Object prototype members are not treated apart.
- PercentEncoding: strings are sequences of Unicode scalar values, so lone surrogates, on which encoding throws, do not occur.
- FormTree: `null`, `undefined`, a missing key and an array hole are one value, writing at mistyped paths is excluded as the source excludes it (a number into an object, a text, a number or a flag; a name into an array or a text), and changes are found by value instead of by reference.
- FormRuns: splicing or deleting in an array that contains this one moves it to another path; that is stated for the containing array, whose rows hold this one with its errors and flags.
- `lodash.merge` of validator errors and manual marks: the merged error tree is an input to the submit gate.
- FormDialog options, `onShow` tasks and error notifications: they do not decide what is submitted.
- Validation: validators that return validators (deprecated in the source), `makeMapValidator`, and array holes, which `map` skips, as opposed to undefined items.
- Fetcher with `deferLoading` above 0: when SET_LOADING of a cancelled fetch lands depends on the scheduling of the library.
- SearchList: automatic search while typing, which only dispatches SEARCH after a delay; the server's list is fixed per query.
- Export.SaveChunks: asks for rows that fit since otherwise the loop does not end, which `EndsIffEachRowFits` states; progress messages and file names are not modelled.
- Csv renderers: cells are given as text.
- Duration.ParseDuration: the value returned beside an out-of-range error is not modelled, callers discard it.
- LogConfig: building the zap core and emitting; a scope is its three settings.
- Log levels are read by scopes at the time of logging; concurrent access is not modelled.
- QuerySets: the PromQL text and the random fetcher ids.
- Selection: a number loosely equals only its usual decimal spelling.
- Columns: rendering, limits and the confirmation dialog.
- Metrics: keys are tuples where the source nests maps, numbers are unbounded integers and reals where the source has int64 and float64, samples that do not parse count 0 as in the source; the service, instance and caller variants share `Metrics.RequestTotals`, and of the joins the one of interfaces is modelled.
- Cacheable: arguments are given by their JSON text, a function that calls its own cache is not modelled, nor the per-instance caches of the decorator.
