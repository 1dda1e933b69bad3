# A verified model of path merging, event logs, the artifact registry and runtime transforms

The project models four parts of a service that discovers REST APIs, compiles them into tools, stores the
compiled versions and calls the tools at run time, and proves what those parts are for.

**REST paths** (`libs/extractors/rest_classification.py`)

- `path_template.dfy`: placeholders in paths, as the pattern `{([^{}]+)}` finds them.
- `path_text.dfy`: what matching and counting mean for the text of paths.
- `path_merge.dfy`: merging of concrete paths into the most general template that matches them. Endpoints are
  mutable objects; a dictionary is a map together with the order in which an iteration visits its keys.
- `sibling_coalescing.dfy`: folding of value-like siblings into one template. `sibling_text.dfy`: what parents, leaves,
  values and new templates are as text.
- `operation_ids.dfy`: numbering of duplicate operation ids.

**Compilation jobs** (`apps/compiler_worker/repository.py`, `apps/compiler_api/repository.py`)

- `event_log.dfy`: any number of `append_event` calls over one table with a unique (job, sequence number) pair,
  interleaved at their database round trips and with the creation and deletion of jobs.
- `event_readers.dfy`: a reader that polls with a cursor. `event_runs.dfy`: two runs in which a job is deleted.
- `job_creation.dfy`: callers racing to create a job: check, insert, second read.

**Artifact registry** (`apps/compiler_api/repository.py`, `libs/db_models.py`)

- `registry.dfy`: the version table with its two unique indexes as a guard on commits, what the five operations
  propose, and when an index rejects it. An absent tenant means "any" in a lookup, and "is null" in a deactivation;
  both readings are kept.
- `registry_methods.dfy`: the operations as methods. `registry_runs.dfy`: runs of operations.
- `registry_rows.dfy`: the operations in terms of the columns of the rows.
- `registry_view.dfy`: on scopes with tenant and environment given, the table refines a map from scopes to
  their versions and active version.

**Runtime transforms** (`apps/mcp_runtime/proxy_utils.py`)

- `token_cache.dfy`: the double-checked OAuth2 token cache, interleaved at its await points. `token_numbers.dfy`: when
  it answers and when it fetches, in seconds.
- `url_template.dfy`: filling path placeholders with percent-encoded arguments (section 2.1 of RFC 3986).
- `url_order.dfy`: when the order of these replacements matters. `url_encoding.dfy`: undoing the percent-encoding.
- `dot_path.dfy`: splitting and joining of escaped dot paths.
- `json.dfy`, `trie.dfy`, `json_heap.dfy`, `partial_copy.dfy`, `finished_copy.dfy`, `field_rules.dfy`,
  `filter_entries.dfy`, `field_filter.dfy`: the field filter. JSON values and their projections come first; then dictionaries as
  mutable objects that result and source share; then the in-place construction, which is proved to leave the
  source's value alone and to arrive at the projection; then the filter as a whole.
- `truncation.dfy`: truncation of UTF-8 text to a byte limit (section 3 of RFC 3629).

`common.dfy` has datatypes and sequence functions that the others share. `dafny verify dfyconfig.toml` checks
the whole project.

## What the proofs found

- Path merging can depend on the order of the dictionary: of `/{a}`, `/{b}`, `/x`, the first template takes the
  evidence of `/x` (`TiesDependOnOrder`). For some keys, the merged dictionary is the same for all orders whatever
  the endpoints hold, exactly when no path has two most general templates (`OrderIsIrrelevantIffNoTie`).
- Deduplicated operation ids can still be equal: `a`, `a`, `a_1` (`SuffixesCanClash`). They are distinct exactly
  when no input id is another one with a number that the deduplication appends (`DistinctIffNoClash`).
- The coalescing threshold has no effect, contrary to the function's documentation: a group with a value-like leaf is
  folded whatever its size, and a group without one never is.
- A path that a field filter requests may come back incomplete when the filter also has an entry with an array
  mark for the same root (`RequestedListIsIncomplete`). `RequestedIsKeptIff` has the exact condition. A root with an
  array mark that is not a list keeps its whole value.
- With nested braces in a URL path, the result can depend on the order of replacement (`NestingMakesOrderMatter`).
  Every order is simultaneous substitution exactly when no literal brace pair, once filled, spells a name of the
  template that does not stand inside it (`SimultaneousIffNothingEscapes`).
- A call that appends an event can give up although nobody else appended one: its job was deleted meanwhile
  (`DeletedJobMakesCallGiveUp`). If a deleted job is created again while a call holds a number of the old log, the
  new log can begin with that number (`StaleNumberHappens`); `RecreationIsSafeIff` has the exact condition.
- Deleting a version never needs the one-active index, even where a null scope stands beside an empty-string
  scope. Creating and activating need it only there (`CreateBesideNullCanConflict`).
- Creating a version may raise the ambiguity error although its row is committed: the lookup that follows the
  commit reads an absent tenant as "any" (`CreateCanRaiseAfterCommit`).
- A token response with a negative lifetime is cached without expiry, as is one without a lifetime
  (`NegativeLifetimeNeverExpires`).

## Model

| member | source | states |
|---|---|---|
| PathMerge.SubsumesIsTransitive | libs/extractors/rest_classification.py:279-285 | strict generality and segment-wise matching together are transitive |
| PathText.MatchesIffFilled | libs/extractors/rest_classification.py:303-312 | a template matches a path iff filling each of its braced segments with non-empty text without a slash can give the text of the path before its query |
| PathText.PlainMatchesItself | libs/extractors/rest_classification.py:303-312 | without braced segments it matches only its own text |
| PathText.CleanIsTextBeforeQuery | libs/extractors/rest_classification.py:303 | what is matched and counted is the text before the first question mark |
| PathText.CountsPlaceholders | libs/extractors/rest_classification.py:296-297 | the count of a path is the number of its placeholders before the query, wherever they stand |
| PathMerge.ScanFindsTarget | libs/extractors/rest_classification.py:317-332 | the scan of the stably sorted templates, with its early exit, finds the first template of greatest count that subsumes the path |
| PathMerge.TargetIsFirstBest | libs/extractors/rest_classification.py:320-332 | a path has a target iff some observed path subsumes it; the target has the greatest count and comes first among equals |
| PathMerge.OnlyTemplatesAreTargets | libs/extractors/rest_classification.py:299-312 | leaving out the paths without placeholders loses no target |
| PathMerge.TargetSurvives | libs/extractors/rest_classification.py:320-332 | a template chosen as target is never merged away itself |
| PathMerge.FindTarget | libs/extractors/rest_classification.py:324-332 | the loop over the sorted templates is that scan |
| PathMerge.FindTargets | libs/extractors/rest_classification.py:320-332 | the recorded mapping holds exactly the paths that have a target, each with it |
| PathMerge.Endpoint.Update | libs/extractors/rest_classification.py:350-352 | a template takes over methods, sources and the larger confidence; the other endpoint stays as it is |
| PathMerge.MergePath | libs/extractors/rest_classification.py:339-364 | one pass of the merge loop changes one entry, which lives in an object of the result's own |
| PathMerge.FoldedCarries | libs/extractors/rest_classification.py:337-352 | after any part of the loop, an entry has exactly the evidence of the paths seen so far |
| PathMerge.DeduplicateConcretePaths | libs/extractors/rest_classification.py:279-366 | each survivor has exactly its own methods and sources united with those of the paths mapped to it, and their maximal confidence; the keys come in the order in which the loop first meets them; the observed endpoints stay unchanged unless returned as they are |
| PathMerge.SurvivorsAreTheUnsubsumed | libs/extractors/rest_classification.py:320-366 | the surviving keys are exactly the paths that no observed path subsumes, for every order |
| PathMerge.MergeConserves | libs/extractors/rest_classification.py:337-366 | no method or source is lost or invented, and none moves to a path that does not subsume its origin |
| PathMerge.MergeTwice | libs/extractors/rest_classification.py:279-366 | merging a merged dictionary, in any order, changes nothing |
| PathMerge.TargetIgnoresOrderIffNoTie | libs/extractors/rest_classification.py:317-332 | a path's target is the same for all dictionary orders iff no two most general templates match it |
| PathMerge.MergeIgnoresOrder | libs/extractors/rest_classification.py:279-366 | without ties the result is the same for all dictionary orders |
| PathMerge.OrderIsIrrelevantIffNoTie | libs/extractors/rest_classification.py:279-366 | for some keys, the merged dictionary is the same for all orders, whatever the endpoints hold, iff no path has a tie |
| PathMerge.TiesDependOnOrder | libs/extractors/rest_classification.py:317-366 | of `/{a}` and `/{b}`, the one observed first takes `/x`, and the merged dictionaries differ |
| PathTemplate.TokenNamesAreNames | libs/extractors/rest_probing.py:36 | what the placeholder pattern finds are non-empty names without braces |
| SiblingCoalescing.NewTemplateFits | libs/extractors/rest_classification.py:401-404 | the template made for a group belongs to that group: its parent is the group's, its leaf is the placeholder |
| SiblingText.ParentAndLeafAreText | libs/extractors/rest_classification.py:401-404 | leaf and parent are what follows and what precedes the last slash, slashes at the end and the query aside; a parent of slashes only is none |
| SiblingText.LeafAlone | libs/extractors/rest_classification.py:401-404 | a path of one segment without a slash is a leaf without a parent |
| SiblingText.NewTemplateIsText | libs/extractors/rest_classification.py:427-442 | the key of a new template is the parent, `/{id}` and the suffix |
| SiblingText.ValueIsText | libs/extractors/rest_classification.py:372-386 | a value is text with a space, a number, or a UUID |
| SiblingText.UuidIsFiveGroups | libs/extractors/rest_classification.py:380-385 | a UUID is five hyphened groups of 8, 4, 4, 4 and 12 hexadecimal digits of either case |
| SiblingText.AsciiDigits | libs/extractors/rest_classification.py:378-379 | among ASCII characters the digits of numbers are 0 to 9 |
| SiblingCoalescing.GroupByParent | libs/extractors/rest_classification.py:400-404 | the dictionary holds, for each parent in order of first occurrence, its paths in order |
| SiblingCoalescing.SortOut | libs/extractors/rest_classification.py:428-436 | the last template of the group and its plain names |
| SiblingCoalescing.Combine | libs/extractors/rest_classification.py:445-456 | the new endpoint has all methods and sources of the group, and URL and confidence of its first most confident path |
| SiblingCoalescing.CoalesceGroup | libs/extractors/rest_classification.py:409-460 | a group with a value leaves its template and then its plain names, any other group leaves itself |
| SiblingCoalescing.CoalesceSiblingEndpoints | libs/extractors/rest_classification.py:389-462 | the result, its order and its values are those of the groups one after the other; kept endpoints are the observed objects |
| SiblingCoalescing.SurvivorsAre | libs/extractors/rest_classification.py:409-460 | a path survives iff it is a plain name, or no sibling is a value, or it is the template of its group; except for templates, its endpoint is unchanged |
| SiblingCoalescing.NoValueIsLeft | libs/extractors/rest_classification.py:372-386 | no value-like path survives, be it a number in any script, a UUID or text with a space, unless it is a template with a space |
| SiblingCoalescing.EvidenceIsKept | libs/extractors/rest_classification.py:450-456 | what was observed at a path is found at a key of the same parent, with no lower confidence |
| SiblingCoalescing.EvidenceIsReal | libs/extractors/rest_classification.py:445-456 | whatever a key of the result claims was observed at a path of the same parent |
| SiblingCoalescing.CoalescingConserves | libs/extractors/rest_classification.py:389-462 | no method and no source is lost or invented |
| SiblingCoalescing.CoalesceTwice | libs/extractors/rest_classification.py:389-462 | coalescing the result again changes nothing, nor the order of the keys |
| OperationIds.DecimalIsInjective | libs/extractors/rest_classification.py:119 | different numbers print differently |
| OperationIds.DecimalDenotes | libs/extractors/rest_classification.py:119 | the printed digits, read from the left, denote the number, without a leading zero |
| OperationIds.SuffixIsInjective | libs/extractors/rest_classification.py:119 | an id with a number appended determines both |
| OperationIds.DeduplicateOperationIds | libs/extractors/rest_classification.py:111-123 | length, order and bodies are kept; the n-th repetition of an id gets the number n |
| OperationIds.EqualNewIdsClash | libs/extractors/rest_classification.py:111-123 | two operations come out with the same id only if an input id is another one with an appended number |
| OperationIds.DistinctIffNoClash | libs/extractors/rest_classification.py:111-123 | the ids come out pairwise distinct iff no input id is another one with a number that is appended to it |
| OperationIds.SuffixesCanClash | libs/extractors/rest_classification.py:111-123 | the input a, a, a_1 comes out with a_1 twice |
| EventLog.MaxOfDense | apps/compiler_worker/repository.py:232-238 | on a gapless log the maximum that a call reads is the number of rows |
| EventLog.StepKeepsInv | apps/compiler_worker/repository.py:185-208 | every step, deletions included, keeps: rows are of existing jobs, one per returned call at most and none for others; an uncommitted row has its job; a call fails at most three times |
| EventLog.StepKeepsJobInv | apps/compiler_worker/repository.py:185-208 | every step keeps the log of a job gapless, one uncommitted row at a time and the numbers held not beyond the next one, unless it creates the job again under a stale number |
| EventLog.LogIsSequential | apps/compiler_worker/repository.py:185-208 | at every moment of every run the numbers of a job are exactly 1..n in the order of their commits, unless the job was created again under a stale number |
| EventLog.LogGrowsUntilDeleted | libs/db_models.py:98-102 | between deletions a log grows only at its end; a deletion leaves it empty |
| EventLog.RecreationIsSafeIff | apps/compiler_worker/repository.py:39-62 | creating a deleted job again keeps its log gapless, whatever happens then, iff no call holds a number above 1 that it has read for it |
| EventRuns.StaleNumberHappens | apps/compiler_worker/repository.py:187-201 | a run in which the log of a job that was created again begins with 2 |
| EventLog.GivingUpNeedsThreeLosses | apps/compiler_worker/repository.py:204-208 | a call gives up only after three attempts, one after the other, each of which met an event that another call committed between its read and its insert, or found the job deleted |
| EventLog.MissingJobIsNotTried | apps/compiler_worker/repository.py:186-187 | a call raises for a missing job only if there was none when it looked, and then it has read and inserted nothing; it goes on only if the job was there |
| EventRuns.DeletedJobMakesCallGiveUp | apps/compiler_api/repository.py:128-133 | a run in which a call gives up although no event was committed |
| EventLog.CallsCommitOnce | apps/compiler_worker/repository.py:185-208 | a call that returned committed one event, once, which is in the table iff its job was not deleted since; any other call committed none |
| EventLog.SomeCallCanMove | apps/compiler_worker/repository.py:185-208 | while a call is unfinished some call can take its next step |
| EventReaders.ListOfDense | apps/compiler_api/repository.py:160-172 | on a gapless log a query after n returns the rows from n+1 on, sorted |
| EventReaders.ReaderReceivesTheLog | apps/compiler_api/repository.py:160-172 | without a deletion, a reader polling at any moments has after its last poll exactly the log of that moment, a prefix of every later log |
| EventReaders.ReaderNeverRepeats | apps/compiler_api/repository.py:160-172 | across deletions, what a reader has is numbered 1, 2, 3, ... up to the longest log it has seen, each event being that of its number in the log of some poll |
| JobCreation.RowStays | apps/compiler_worker/repository.py:59-62 | a stored job stays as it is until it is deleted |
| JobCreation.FirstCommitterWins | apps/compiler_worker/repository.py:39-70 | racing calls leave one row with the fields of the only insert that succeeded |
| JobCreation.ExplicitCallersGetTheId | apps/compiler_worker/repository.py:44-70 | every caller that chose the id and finished got it back, and the row is there, unless someone deletes jobs |
| JobCreation.ExplicitCallersCheckFirst | apps/compiler_worker/repository.py:44-47 | such a caller inserts only after its check has found no job |
| JobCreation.ReturnedJobWasStored | apps/compiler_worker/repository.py:44-70 | whoever returns an id does so while the job is in the table |
| JobCreation.ImplicitCallersInsert | apps/compiler_worker/repository.py:59-65 | a caller that did not choose the id returns only the id of a row it inserted itself, and raises only if the id was taken |
| JobCreation.RaisingNeedsDeletion | apps/compiler_worker/repository.py:63-69 | such a caller raises only if the job is deleted between its rejected insert and its second read |
| Registry.LookUpDecides | apps/compiler_api/repository.py:770-789 | fetching two rows decides: not found iff no row matches, ambiguous iff two do, found iff exactly that one does |
| Registry.FullLookUpIsExact | apps/compiler_api/repository.py:751-808 | with version, tenant and environment given the lookup is never ambiguous and finds the matching row |
| RegistryRows.OperationReachesTheOne | apps/compiler_api/repository.py:751-808 | an operation reaches row k iff k alone has the service, the version and what is given of the scope; it raises iff several rows do, and changes nothing if none does |
| RegistryRows.AnyEnvironmentIsReached | apps/compiler_api/repository.py:804-807 | without an environment the row is reached whatever its environment, if no other row of that tenant has the version |
| RegistryRows.ActivatedByColumns | apps/compiler_api/repository.py:560-569 | activating sets the flag of its row, clears it in the rest of exactly that service, tenant and environment, and changes nothing else |
| RegistryRows.UpdatedByColumns | apps/compiler_api/repository.py:514-537 | an update stores each column it gives and leaves the others and all other rows alone |
| RegistryRows.DeleteServiceByColumns | apps/compiler_api/repository.py:638-651 | the rows left are those of other services and of other tenants or environments than given; without a scope, those of other services |
| RegistryRows.DefaultByColumns | apps/compiler_api/repository.py:398-407 | without a flag a version starts active iff no row has its service and what is given of its scope |
| RegistryRows.CreatedByColumns | apps/compiler_api/repository.py:409-436 | creating adds a row with the given columns; if it is active, exactly the rows of its service, tenant and environment lose their flag |
| RegistryRows.CreatedIsAmbiguousIff | apps/compiler_api/repository.py:437-442 | creating raises after the commit iff another row has the service, the version and what is given of the scope |
| RegistryRows.KeyByColumns | libs/db_models.py:124-138 | the indexes tell rows apart by service, tenant and environment, null read as the empty string |
| RegistryMethods.ArtifactRegistry.RequireUniqueVersionRecord | apps/compiler_api/repository.py:770-789 | the decision on at most two fetched rows |
| RegistryMethods.ArtifactRegistry.Commit | libs/db_models.py:121-139 | the unique indexes accept the proposed table as a whole or leave the old one |
| Registry.CreateConflicts | apps/compiler_api/repository.py:392-442 | creating violates the one-active index iff an active row lands beside an active one whose scope differs only as null and empty string; it violates the version index iff the version is taken |
| Registry.ActivateConflicts | apps/compiler_api/repository.py:546-574 | activating violates the one-active index iff there is such a twin, and never the version index |
| Registry.UpdateConflicts | apps/compiler_api/repository.py:496-544 | updating violates an index iff it moves an active row onto an active one, or a row onto its version |
| Registry.DeleteNeverConflicts | apps/compiler_api/repository.py:576-628 | deleting and promoting never violates an index |
| Registry.KeptKeepsIndexes | apps/compiler_api/repository.py:630-656 | deleting a service never violates an index |
| Registry.KeptRows | apps/compiler_api/repository.py:638-651 | it keeps exactly the rows that it does not select |
| RegistryMethods.DeactivateServiceVersions | apps/compiler_api/repository.py:718-749 | the rows of exactly the scope, null read as null, lose their active flag |
| RegistryMethods.FindReplacement | apps/compiler_api/repository.py:600-621 | the row of the greatest version in the scope, if there is one |
| RegistryMethods.ArtifactRegistry.CreateVersion | apps/compiler_api/repository.py:392-442 | the table after creation, and the reply: a conflict with the table unchanged, the new row, or ambiguity although the row is stored |
| RegistryMethods.ArtifactRegistry.UpdateVersion | apps/compiler_api/repository.py:496-544 | the table after an update and the reply in each of the four cases |
| RegistryMethods.ArtifactRegistry.ActivateVersion | apps/compiler_api/repository.py:546-574 | the table after an activation and the reply in each of the four cases |
| RegistryMethods.ArtifactRegistry.DeleteVersion | apps/compiler_api/repository.py:576-628 | the table after a deletion and the reply in each of the four cases |
| RegistryMethods.ArtifactRegistry.DeleteService | apps/compiler_api/repository.py:630-656 | the rows that are left, and the number of rows deleted |
| RegistryRuns.RunsKeepOneActive | libs/db_models.py:124-131 | a corollary of the commit guard: after every run of operations at most one version per scope is active |
| RegistryRuns.OnlyUpdatesCanConflict | apps/compiler_api/repository.py:392-656 | without empty-string scopes, no operation but an update proposes a second active version |
| RegistryRuns.RunsNeedTheIndexOnlyForUpdates | apps/compiler_api/repository.py:392-656 | the same over whole runs: the index has nothing to reject except at updates |
| RegistryRuns.RunsWithoutUpdatesNeedNoIndex | apps/compiler_api/repository.py:392-656 | runs without updates and empty-string scopes end as they would without the one-active index, with one active version per scope |
| RegistryRuns.UpdateCanConflict | apps/compiler_api/repository.py:530-533 | moving an active version into a scope with another active one does violate the index |
| RegistryRuns.CreateBesideNullCanConflict | apps/compiler_api/repository.py:410-415 | an active version for tenant "" beside one for no tenant violates the index |
| RegistryRuns.CreateCanRaiseAfterCommit | apps/compiler_api/repository.py:434-442 | a version created without a tenant is stored, and the lookup after it is ambiguous beside another tenant's version of that number |
| RegistryRuns.DeletePromotesGreatest | apps/compiler_api/repository.py:594-624 | deleting the active version leaves the scope empty or with one active version, the greatest; deleting an inactive one changes no flag; other scopes stay as they are |
| RegistryView.FullQueryFinds | apps/compiler_api/repository.py:791-808 | on full scopes "any" and "is null" agree: the lookup finds exactly the scope's own row |
| RegistryView.DefaultStart | apps/compiler_api/repository.py:398-407 | without a flag a version starts active iff its scope has no versions |
| RegistryView.CreateRefines | apps/compiler_api/repository.py:392-442 | creating acts as the map operation on its scope and leaves other scopes alone |
| RegistryView.ActivateRefines | apps/compiler_api/repository.py:546-574 | activating acts as the map operation on its scope and leaves other scopes alone |
| RegistryView.DeleteRefines | apps/compiler_api/repository.py:576-628 | deleting acts as the map operation, promoting the greatest remaining version, and leaves other scopes alone |
| RegistryView.LastActivationWins | apps/compiler_api/repository.py:546-574 | after any run of activations each scope's active version is the last one activated in it, and no version is lost |
| TokenCache.StepKeepsInv | apps/mcp_runtime/proxy_utils.py:290-377 | every step keeps: lock held iff inside the block, the cache is the last fetch of each key, later fetches were decided after earlier tokens ran out, every returned token was good |
| TokenCache.MutualExclusion | apps/mcp_runtime/proxy_utils.py:297-376 | at most one caller is inside the guarded block, in every interleaving |
| TokenCache.SomeCallerCanMove | apps/mcp_runtime/proxy_utils.py:297-376 | the lock is never lost, whatever fails |
| TokenCache.ReturnedTokensAreGood | apps/mcp_runtime/proxy_utils.py:290-305 | a returned token was fetched for the caller's own key, by itself or with more than 30 seconds left when checked |
| TokenCache.OneFetchWhileFresh | apps/mcp_runtime/proxy_utils.py:298-305 | while a token has more than 30 seconds left, its key is not fetched again |
| TokenNumbers.ChecksInNumbers | apps/mcp_runtime/proxy_utils.py:290-305 | after an answer of lifetime L >= 0 decided at c, a check at n returns that token iff n + 30 < c + L; else the first check waits and the second fetches; without a lifetime, or with a negative one, it is always returned; no check adds a fetch |
| TokenNumbers.FetchIsDecidedAtSecondCheck | apps/mcp_runtime/proxy_utils.py:301 | c is the moment of the second check that led to the fetch |
| TokenNumbers.FirstCallerFetches | apps/mcp_runtime/proxy_utils.py:290-305 | before any answer for its key, a caller waits and then fetches |
| TokenNumbers.OneAnswerPerLifetime | apps/mcp_runtime/proxy_utils.py:297-376 | while n + 30 < c + L, no other fetch for the key is answered |
| TokenCache.CallersShareOneFetch | apps/mcp_runtime/proxy_utils.py:290-377 | from an empty cache, while the first token of a key is fresh, it is the only fetch and every returned caller has it |
| TokenCache.StoredExpiryIsSafe | apps/mcp_runtime/proxy_utils.py:370-375 | the cached entry is the last fetch, and its expiry is never later than response time plus lifetime |
| TokenNumbers.TokensAreNotEmpty | apps/mcp_runtime/proxy_utils.py:365-369 | no empty token is cached or returned |
| TokenCache.NegativeLifetimeNeverExpires | apps/mcp_runtime/proxy_utils.py:370-375 | a run that caches a token of negative lifetime for ever |
| UrlTemplate.ReplaceFillsOneName | apps/mcp_runtime/proxy_utils.py:123-126 | one replacement fills exactly the placeholders of that name, unless some literal brace pair spells it by then |
| UrlOrder.ArgumentsServe | apps/mcp_runtime/proxy_utils.py:117-126 | what `ResolvePath` fills in meets the assumption of the following rows: percent-encoding leaves no brace in any argument |
| UrlOrder.AnyOrderIsSimultaneous | apps/mcp_runtime/proxy_utils.py:117-126 | replacing names one by one in any order is simultaneous substitution, unless a brace pair, once filled, spells a name from outside it |
| UrlOrder.SimultaneousIffNothingEscapes | apps/mcp_runtime/proxy_utils.py:117-126 | every order is simultaneous substitution iff there is no such brace pair, for all arguments |
| UrlOrder.OrderIsIrrelevantIffNothingEscapes | apps/mcp_runtime/proxy_utils.py:117-126 | unless such a pair spells a name whose argument is empty, all orders agree iff there is no such pair |
| UrlOrder.CleanIffUnnested | apps/mcp_runtime/proxy_utils.py:117-126 | every order is simultaneous substitution and leaves no placeholder iff no literal brace pair, once filled, has a text; with arguments none of which is empty, iff the template has no nested braces |
| UrlTemplate.ResolvePath | apps/mcp_runtime/proxy_utils.py:112-126 | fails iff an argument is missing and names one that is; otherwise the replacements in some order of the names |
| UrlEncoding.UnquoteQuote | apps/mcp_runtime/proxy_utils.py:123-126 | the bytes of every argument can be read back from its text, `%XY` being 16 times X plus Y |
| UrlEncoding.QuoteIsInjective | apps/mcp_runtime/proxy_utils.py:123-126 | different arguments never give the same text |
| UrlEncoding.QuoteOneByte | apps/mcp_runtime/proxy_utils.py:123-126 | letters, digits and `_.-~` stand for themselves; any other byte gives a percent sign and two digits |
| UrlTemplate.NoPlaceholderLeftIff | apps/mcp_runtime/proxy_utils.py:117-126 | the filled path has no placeholder iff no literal brace pair, once filled, has a text, for all arguments |
| UrlTemplate.NoPlaceholderLeftIffUnnested | apps/mcp_runtime/proxy_utils.py:117-126 | where no argument is empty, that is iff the template has no nested braces |
| UrlTemplate.ArgumentsAddNoSegment | apps/mcp_runtime/proxy_utils.py:123-126 | an argument never adds a path segment, whatever its bytes |
| UrlTemplate.NestingMakesOrderMatter | apps/mcp_runtime/proxy_utils.py:117-126 | with nested braces two orders give different paths |
| DotPath.JoinSplit | apps/mcp_runtime/proxy_utils.py:689-711 | joining the segments of a path, dots escaped, gives back the path |
| DotPath.SplitJoin | apps/mcp_runtime/proxy_utils.py:689-711 | what splitting makes of any joined list: a final backslash swallows the next separator |
| DotPath.SplitJoinRoundTrip | apps/mcp_runtime/proxy_utils.py:689-711 | splitting a joined list gives it back iff no segment but the last ends in a backslash |
| DotPath.SplitEscapedDotPath | apps/mcp_runtime/proxy_utils.py:689-711 | the loop computes the segments |
| DotPath.HasUnescapedDot | apps/mcp_runtime/proxy_utils.py:714-725 | true iff the path splits into more than one segment |
| Trie.InsertRepresents | apps/mcp_runtime/proxy_utils.py:837-848 | adding a path to the shape of a projection gives the shape of the larger projection |
| Trie.EvalIsProjection | apps/mcp_runtime/proxy_utils.py:781-805 | what such a shape shares with the source is the projection |
| PartialCopy.ShareKeepsOk | apps/mcp_runtime/proxy_utils.py:847-848 | sharing a value of the source at its own path keeps the construction in order |
| PartialCopy.CreateKeepsOk | apps/mcp_runtime/proxy_utils.py:838-846 | creating an empty dictionary on the way keeps it in order |
| PartialCopy.Descend | apps/mcp_runtime/proxy_utils.py:842-846 | one step of the walk stays in the result's own dictionaries or at the source's value of the same path |
| PartialCopy.PlacedOk | apps/mcp_runtime/proxy_utils.py:847-848 | the final write shares the value at its path; a write into a dictionary of the source writes what is there |
| PartialCopy.Find | apps/mcp_runtime/proxy_utils.py:829-834 | the value at a path of the source, if the path is there |
| PartialCopy.SetNested | apps/mcp_runtime/proxy_utils.py:820-848 | the source's dictionaries end as they began although the walk may write into them; the result shares one more path iff the source has it |
| FinishedCopy.FinishedMeans | apps/mcp_runtime/proxy_utils.py:788-800 | the finished construction means the projection of the source onto the shared paths |
| FieldFilter.CopyTopKeys | apps/mcp_runtime/proxy_utils.py:790-793 | exactly the requested keys that the source has are shared |
| FieldFilter.CopyNested | apps/mcp_runtime/proxy_utils.py:795-799 | the nested paths that the source has are shared in addition, whatever was shared before |
| FieldFilter.NarrowItems | apps/mcp_runtime/proxy_utils.py:806-813 | each object of a list is replaced by a new one with the named keys; other items stay |
| FieldFilter.NarrowRoots | apps/mcp_runtime/proxy_utils.py:801-815 | every root with an array mark gets its narrowed value, whatever it had before |
| FieldFilter.FilterDict | apps/mcp_runtime/proxy_utils.py:781-817 | a new dictionary that means the filtered object; every dictionary of the source keeps what it held |
| FieldFilter.ParseFilter | apps/mcp_runtime/proxy_utils.py:740-756 | keys, nested paths and array marks together are the rules of the set of entries, whatever their order or repetition |
| FieldFilter.FlatFilter | apps/mcp_runtime/proxy_utils.py:764-769 | the short cut for plain keys agrees with the general filter |
| FieldFilter.FilterList | apps/mcp_runtime/proxy_utils.py:761-776 | each object of a list payload is filtered by the rules together with the fields of array marks |
| FieldFilter.ApplyFieldFilter | apps/mcp_runtime/proxy_utils.py:728-778 | the payload's dictionaries end as they began; the result means the payload filtered by the set of entries, so their order does not matter |
| FieldRules.FilterIsWithin | apps/mcp_runtime/proxy_utils.py:728-817 | the result holds only data found at the same place of the payload |
| FieldRules.FilterKeepsExactly | apps/mcp_runtime/proxy_utils.py:781-800 | below roots without an array mark a path is in the result iff the payload has it and it leads to, past or towards a requested path; requested paths keep their values |
| FilterEntries.ParseSplitsAtMark | apps/mcp_runtime/proxy_utils.py:740-744 | an entry with an array mark is a root and a field, split at the first mark |
| FilterEntries.ParseSplitsAtDots | apps/mcp_runtime/proxy_utils.py:745-752 | any other entry is the path of its segments |
| FilterEntries.ObjectKeepsExactly | apps/mcp_runtime/proxy_utils.py:781-800 | below a root that no entry marks, an object payload keeps a path iff it has it and some entry leads to, past or towards it; requested paths keep their values |
| FilterEntries.ListItemKeepsExactly | apps/mcp_runtime/proxy_utils.py:761-776 | an object in a list payload keeps, below unmarked roots, what some entry leads to and every field that some entry marks, whatever the entry's root, with its value |
| FilterEntries.MarkedRootIsNarrowed | apps/mcp_runtime/proxy_utils.py:801-815 | at a marked root, a list keeps its length, and of each object exactly the marked fields; any other value stays |
| FilterEntries.OtherValuesStay | apps/mcp_runtime/proxy_utils.py:737-778 | scalars, items that are no objects, and everything under an empty filter stay |
| FieldRules.FilteredHas | apps/mcp_runtime/proxy_utils.py:781-800 | the same for each object of a list payload, by its rules |
| FieldRules.RequestedIsKeptIff | apps/mcp_runtime/proxy_utils.py:788-815 | a requested path keeps its value iff its root has no array mark, or is not a list, or no item has a field beyond the marked ones |
| FieldRules.RequestedListIsIncomplete | apps/mcp_runtime/proxy_utils.py:788-815 | the filter `key`, `key[].field` does not give a list back whose item has another field |
| FieldRules.FilterTwice | apps/mcp_runtime/proxy_utils.py:728-817 | filtering twice equals filtering once, for every payload and filter |
| Json.ProjectionKeeps | apps/mcp_runtime/proxy_utils.py:788-800 | a projection keeps the value at each of its paths |
| Json.ProjectionIsMinimal | apps/mcp_runtime/proxy_utils.py:788-800 | and has no path that does not lie on one of them |
| Truncation.DecodeEncode | apps/mcp_runtime/proxy_utils.py:885-886 | decoding undoes encoding for every text |
| Truncation.EncodeDecode | apps/mcp_runtime/proxy_utils.py:866-867 | the decodable byte strings are exactly the encodings |
| Truncation.FitIsLongest | apps/mcp_runtime/proxy_utils.py:862-877 | the fitting prefix is within the limit, and its next character is not |
| Truncation.CutDecodes | apps/mcp_runtime/proxy_utils.py:866-877 | a cut of an encoding decodes iff it ends at a character boundary, and then to the characters before it |
| Truncation.TruncateUtf8Prefix | apps/mcp_runtime/proxy_utils.py:862-877 | for any bytes, the longest decodable prefix within the limit, and whether the limit was missed |
| Truncation.TruncationOfValidText | apps/mcp_runtime/proxy_utils.py:862-877 | for valid text, the longest prefix of whole characters, at most three bytes short; the flag is set iff the limit falls inside a character |
| Truncation.ApplyTruncation | apps/mcp_runtime/proxy_utils.py:880-901 | the content is replaced iff it is over budget under a truncating policy, by a prefix within the limit and at most three bytes below it |

## Left out

- Concurrency as code: `append_event`, `create_job` and `fetch_oauth2_access_token` are step systems whose steps
  are the code between two await points, not methods. Statements of the database take effect one at a time and
  see what is committed (READ COMMITTED); an insert waits for an uncommitted row with the same key, and the
  deletion of a job for an uncommitted event of it.
- The event stream of `routes/compilations.py`: it ends when the job's status is terminal, which the workflow sets
  before it appends its last event, so a stream may end without that event. `ReaderReceivesTheLog` is about polls.
- Clocks that go backwards, and failures of the lock itself, in the token cache. Cache keys are given, not built;
  secrets, request forms and HTTP are left out.
- `commit=False` variants of the registry operations, and the transaction they are part of. The columns of a version
  other than scope, number and active flag are one `body`; artifacts are part of it.
- Regular expressions as a library: placeholders, wildcard segments and matching are modelled directly. A wildcard
  matches any non-empty segment.
- SiblingCoalescing.CoalesceSiblingEndpoints: the query suffix that siblings share is a parameter, of which only
  this is assumed: it is empty or starts with a question mark. URL query parsing is not part of this model.
- UrlOrder.OrderIsIrrelevantIffNothingEscapes: says nothing of templates where a brace pair spells a name whose
  argument is empty; that some order is not simultaneous substitution holds there, too (`SimultaneousIffNothingEscapes`).
- SiblingText.AsciiDigits: of the digits of other scripts nothing is stated but the table of their zeros.
- Confidence is a real number; it is only compared.
- URL handling around the placeholders (base URL, query, encoding of the argument's text to bytes).
- JSON text, number formats, the key order of objects, and the identity of lists: lists are values, since the
  filter never writes into one. `serialized` in `ApplyTruncation` is the text that truncation starts from.
- PartialCopy.SetNested: the type checks of the walk do not appear, since on a path that the source has each step
  stands on a dictionary (`StandsIsDict`).
- Cyclic payloads: JSON has none, and the field filter is only given parsed JSON. Shared parts are allowed.
- Array limits, response sanitising, authentication headers, logging, metrics and tracing: no state to reason about.
- Probing of live services, and the compile and rollback workflows: their results depend on remote answers.
