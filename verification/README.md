# Verified model of the Open Host Factory plugin's algorithms

The plugin hands out cloud machines on request. Most of it wires commands and queries to a cloud
provider, but parts of it are algorithms and state machines with laws of their own. This project models
those parts and proves the laws:

- **Layered configuration** (`ConfigTrees`, `ConfigHeap`, `PathWrites`, `Assignments`, `HeapAssignments`,
  `EnvMapping`, `HostFactoryVars`, `EnvOverlay`, `OverlayFailures`, `WriteOrder`, `LegacyNames`,
  `LegacyVars`, `MappedByName`, `HostFactoryByName`, `ConfigLoader`). The deep merge is done in place on
  dictionary objects that the layers come to share. It is proved to refine a merge of plain trees, and the
  environment's writes on top of it to refine writes along paths. On the trees: precedence path by path,
  the exact conditions for associativity, for the environment overlay being a merge, and for its raising.
- **Names** (`NameConversion`, `SdkClient`). Two greedy substitutions equal a positional rule; the exact
  condition for the round trip with camel case; the client's views of its methods agree over every run.
- **Provisioning** (`Provisioning`). Everything outside the handler of create commands may fail at each
  call; what is saved, published and returned is proved for every command, for runs of commands and for
  commands that interleave.
- **Caches and retries** (`QueryCache`, `ReturnRequestsCache`, `ReturnRequestsFilters`, `Retries`).
  A memo table under interleaved coroutines, a time-limited cache against an unbounded log, the filters,
  and two backoff loops.
- **Text and logs** (`Whitespace`, `AsciiTable`, `Health`). A cleaner that converges though one pass is not
  enough, a table printer, and bounded histories under nested health checks.

Functions, datatypes and lemmas stand for what the code computes; classes and methods with loops stand for
the code that changes objects in place, each proved against such a function. `dafny verify dfyconfig.toml`
checks everything.

## How the model reads the code

- Dictionaries are visited in an arbitrary order wherever the code iterates over one, so every result holds
  for all orders. The order of the environment, which matters for the legacy variables, is a parameter.
- `_convert_value`, header making, `str.lower` of a table's title, cache keys and cacheability are function
  parameters: the results hold for all of them. The values in a table are given as their strings.
- The buses, the provider, the request aggregate, the stores and the publisher are answers in a `World`,
  one for each place they are called from, and each of them may raise.
- The clock is a reading passed in at each use. Whether an eviction can be observed is decided for every
  clock (`LookupFollowsLogIff`); one that never runs backwards excludes it, another need not
  (`EvictionObservable`).
- `str.upper`, `str.lower` and `str.title` are those of ASCII; `os.path.join` is the POSIX one with a
  relative second part. `str.splitlines` and `str.rstrip` have their full character sets.
- Configuration numbers are `real`s; no arithmetic is done on them.

Where the code and what is written about it differ, the model follows the code:

- `load` names legacy files and a separate fallback directory as layers of their own
  (`src/config/loader.py:113-119`); the code merges three files (`src/config/loader.py:130-154`).
- The user guide promises that `HF_<SECTION>_<FIELD>` sets a field
  (`docs/docs/user_guide/configuration.md:243`); the code upper-cases the name, splits it at double
  underscores, and so never reaches a lower-case setting (`LegacyKeepsLowerCase`).
- The cleaner's comment promises a text that ends in a single newline
  (`dev-tools/scripts/clean_whitespace.py:26`); with two or more trailing blank lines it does not
  (`IdempotentIff`).
- `execute_with_retry` says that it raises the last exception
  (`src/application/base/provider_handlers.py:328-329`); an exception whose `response` attribute is no
  mapping makes `should_retry` raise in its place (`ErrorReplacedIff`).
- The client sets out to remove every method it added (`src/sdk/client.py:142-146`); a discovered method
  with the name of a property of the client stops initialisation and clean-up half-way
  (`ProviderQueryClashes`, `Initialize`, `Cleanup`).
- The mapped variables are not one more merge layer when a JSON object among them meets a dictionary with
  keys of its own; it then replaces that dictionary (`OverlayIsMergeIff`, `MappedOverlayNotAlwaysMerge`).

## Model

| member | source | states |
|---|---|---|
| ConfigTrees.MergeIdempotent | src/config/loader.py:577-583 | merging a configuration into itself changes nothing |
| ConfigTrees.MergeEmpty | src/config/loader.py:577-583 | the empty dictionary is neutral on both sides |
| ConfigTrees.MergeReapply | src/config/loader.py:577-583 | merging the same layer a second time changes nothing |
| ConfigTrees.AbsorbsIffCovers | src/config/loader.py:577-583 | an update swallows its base whole exactly when it overrides every key of it, at every depth |
| ConfigTrees.MergeAssociativeIff | src/config/loader.py:577-583 | three layers merge the same in either grouping exactly when at no path the middle one holds a non-dictionary between two dictionaries of which the last leaves some of the first standing |
| ConfigTrees.MergeNotAssociative | src/config/loader.py:577-583 | three concrete layers whose two groupings differ |
| ConfigTrees.ResolveMerged | src/config/loader.py:577-583 | what is found at any path of a merge, from what the two layers hold there: the update's value, a path cut off by a non-dictionary of the update, or the base's |
| ConfigTrees.LayeredPrecedence | src/config/loader.py:113-119 | what is seen at every path through the three files: the explicit file wins over the main file and the main file over the defaults, a dictionary is merged over what the layers below show, and a layer that cuts the path off hides them |
| ConfigHeap.MergeConfig | src/config/loader.py:567-583 | the recursive in-place merge ends, leaves the base standing for the merged tree, leaves the update as it was, and both well formed although they now share objects; base and update need only share nothing beforehand |
| ConfigHeap.MergeChild | src/config/loader.py:578-580 | a merge below one key changes that key's tree only, and keeps the siblings apart |
| ConfigHeap.ReplaceKey | src/config/loader.py:581-583 | a replaced key holds the update's own object, and the keys still to come are not disturbed by it |
| PathWrites.ApartIffNoPrefix | src/config/loader.py:54-90 | two paths are on different branches exactly when neither is a prefix of the other |
| PathWrites.WriteAtPath | src/config/loader.py:395-400 | a write raises exactly when its path meets a non-dictionary, and otherwise its value is found at the path |
| PathWrites.WriteElsewhere | src/config/loader.py:395-400 | a write changes nothing on other branches |
| PathWrites.WritesCommute | src/config/loader.py:395-400 | two writes on different branches commute, failures included |
| PathWrites.WriteOrderIrrelevant | src/config/loader.py:392-400 | any two orders of writes on different branches give the same tree or both raise |
| PathWrites.WriteAllFailsIff | src/config/loader.py:392-400 | a run of writes raises exactly when one of its paths was blocked at the start |
| PathWrites.WriteAllReads | src/config/loader.py:392-400 | afterwards every path holds its value and every other branch what it held before |
| PathWrites.OverlayIsMergeIff | src/config/loader.py:391-400 | a run of writes equals one deep merge with the tree it builds exactly when every value covers the dictionary it meets |
| Assignments.ApplyAllReads | src/config/loader.py:439-532 | a path that other writes stay clear of holds the last value written to it |
| Assignments.ApplyGuarded | src/config/loader.py:460-464 | a write that looks at the key beside it first is made exactly when that key is missing or has the expected value |
| Assignments.ApplyAllFailsIff | src/config/loader.py:391-532 | a run of writes of which none is nested in another raises exactly when one of their paths was blocked at the start |
| HeapAssignments.Assign | src/config/loader.py:395-400 | the pointer walk on objects with `setdefault` does what the write on trees does, and changes nothing when it raises |
| HeapAssignments.AssignAll | src/config/loader.py:391-420 | so does a run of such walks, ending at the first that raises |
| EnvMapping.MappingApart | src/config/loader.py:54-90 | the 28 mapped paths are distinct and none extends another |
| EnvMapping.MappedOrderIrrelevant | src/config/loader.py:391-400 | the mapped variables may be applied in any order, on any configuration |
| EnvMapping.MappedOverlayIsMergeIff | src/config/loader.py:391-400 | they raise exactly when a path of one is blocked, and are one merge exactly when no value leaves part of a dictionary uncovered |
| EnvMapping.MappedOverlayNotAlwaysMerge | src/config/loader.py:391-400 | with `AWS_REGION` set to `{}`, read as an empty object, and a region dictionary in the files, the mapped variables are not a merge |
| EnvMapping.MappedSettingHolds | src/config/loader.py:391-400 | a mapped variable that is set has its converted value at its path after the mapped writes |
| EnvMapping.MappedKeepsOthers | src/config/loader.py:391-400 | what is apart from the paths of all variables that are set keeps its value |
| HostFactoryVars.HostFactoryDecides | src/config/loader.py:432-532 | each listed logging, storage, events and template path holds what the Host Factory variables ask for, with the directory variables before the work directory, and otherwise what it held before |
| HostFactoryVars.SqlNameDecided | src/config/loader.py:460-464 | the database name changes exactly when there is a work directory and the storage type was missing or `sqlite` |
| HostFactoryVars.HostFactoryKeepsOthers | src/config/loader.py:432-532 | every path apart from the ten listed ones keeps its value |
| EnvOverlay.LegacyKeepsLowerCase | src/config/loader.py:405-420 | legacy variables change no path that starts at a key with a lower-case letter |
| LegacyNames.SplitDoubleIs | src/config/loader.py:412-413 | the parts of a name make it up with double underscores between them, hold none, and none but the last ends in an underscore |
| LegacyNames.SplitDoubleIsTheOnly | src/config/loader.py:412-413 | there is only one such way to cut a name |
| LegacyVars.LegacyVariableIsAt | src/config/loader.py:405-420 | a legacy variable that stands alone has its converted value at the path that its name spells: what follows `HF_`, small letters made capital, so cut |
| LegacyVars.LegacyRootKey | src/config/loader.py:418-420 | a name without a double underscore goes to one root key |
| LegacyVars.LegacyNamesAre | src/config/loader.py:93-103 | the legacy variables are those that start with `HF_`, but for nine |
| Ascii.CasesInPlace | src/config/loader.py:409 | changing the case changes letters of the other case only, by 32 in code, and in their places |
| LegacyVars.LegacyVariableWins | src/config/loader.py:405-420 | a legacy variable has its converted value at the upper-cased path its name spells, after the whole overlay, when no other legacy path equals, extends or begins it |
| LegacyVars.LegacyOrderIrrelevant | src/config/loader.py:407-420 | while no legacy path equals or extends another, any order of the environment gives the same configuration or the same failure |
| LegacyVars.LegacyPairOrderIff | src/config/loader.py:407-420 | for two legacy variables the order matters exactly when their writes do not commute |
| LegacyVars.CaseClash | src/config/loader.py:409 | `HF_A` and `HF_a` go to one path, so with different values the later one decides |
| WriteOrder.SamePathCommuteIff | src/config/loader.py:411-420 | writes to one path commute exactly when it is blocked or their values agree |
| WriteOrder.NestedCommuteIff | src/config/loader.py:411-420 | a write and one below it commute exactly when both raise in either order, or the lower one leaves the value of the upper one as it is |
| EnvOverlay.MappedVariableWins | src/config/loader.py:384-420 | after the whole overlay a mapped variable's path holds its value, whatever the files and the other variables say, unless it is one of the paths the Host Factory variables write too |
| EnvOverlay.EnvironmentDecides | src/config/loader.py:384-420 | what the whole overlay leaves at each of the ten Host Factory paths: those variables come first, then the mapped variable, then the files; the database name changes only for the default storage type |
| MappedByName.AwsSettings | src/config/loader.py:56-62 | each of these variables by name, if set, has its converted value at its spelled-out path after the whole overlay |
| MappedByName.SymphonySettings | src/config/loader.py:64-74 | likewise |
| MappedByName.LoggingAndEventsSettings | src/config/loader.py:76-84 | likewise, but for the two settings that the Host Factory directories override |
| MappedByName.ApplicationSettings | src/config/loader.py:86-89 | likewise, at the root |
| HostFactoryByName.LogFile | src/config/loader.py:439-450 | the log file is `app.log` in the log directory, else in `logs` in the work directory, else where `LOG_FILE`, else where the files put it; an empty variable is none |
| HostFactoryByName.Storage | src/config/loader.py:453-458 | the storage is based in the work directory if there is one |
| HostFactoryByName.Database | src/config/loader.py:460-467 | the database is `database.db` in the work directory, exactly when the storage type was missing or `sqlite` |
| HostFactoryByName.EventStores | src/config/loader.py:480-496 | the event and snapshot stores are in the directories named for them, if any |
| HostFactoryByName.DefaultDirectories | src/config/loader.py:480-501 | their default paths likewise, else `events` and `snapshots` in the work directory |
| HostFactoryByName.ImageResolution | src/config/loader.py:504-532 | none of the three settings is touched unless one of the variables is more than empty, and then each that is set |
| OverlayFailures.SettingsFailIff | src/config/loader.py:391-403 | the mapped and the Host Factory writes raise exactly when the files block a path that one of them writes |
| OverlayFailures.OverlayFailsIff | src/config/loader.py:384-420 | the whole overlay raises exactly then, or when the legacy writes alone would raise on the files |
| ConfigLoader.LoadFromEnv | src/config/loader.py:384-420 | the three groups of writes on objects give the overlay of the tree, or raise exactly when it does |
| ConfigLoader.Load | src/config/loader.py:130-157 | the configuration stands for the environment laid over the left fold of the three files, although the merges share objects that later merges and writes change |
| ConfigLoader.FileSettingSurvives | src/config/loader.py:130-157 | a setting that no environment write comes near is the one the files decide |
| NameConversion.CamelToSnakeIsPositional | src/sdk/discovery.py:139-145 | the two greedy, non-overlapping substitutions followed by lowering equal the one-pass positional rule, for every string |
| NameConversion.SnakeLayout | src/sdk/discovery.py:139-145 | every character of the name appears lowered and in order, with exactly one underscore before each place of the rule and none elsewhere or at either end |
| NameConversion.RoundTripIff | src/api/models/requests.py:8-11 | camel case and back gives the field name exactly when no two one-letter components are neighbours after the first |
| NameConversion.RoundTripFails | src/api/models/requests.py:8-11 | a field name that does not come back |
| NameConversion.TitleAt | src/api/models/requests.py:11 | in a title-cased component a letter after a letter is small and any other is a capital |
| NameConversion.SplitsAtUnderscores | src/api/models/requests.py:10 | the components of a name hold no underscore |
| NameConversion.CapitalsRecoverName | src/api/models/requests.py:8-11 | the capitals of an alias alone recover the field name, always |
| NameConversion.AliasesInjective | src/api/models/requests.py:22-25 | no two field names have the same alias |
| SdkClient.MethodNameIsPositional | src/sdk/discovery.py:113-137 | a handler class is offered under the positional snake form of its name, one suffix of its kind removed |
| SdkClient.DiscoveredAt | src/sdk/discovery.py:57-84 | a name is offered exactly when some handler has it; a command wins over a query, a later handler over an earlier one of its kind |
| SdkClient.MethodDiscovery.DiscoverCqrsMethods | src/sdk/discovery.py:57-89 | the returned table and the information cache are filled alike, as specified, on top of what the cache held; a registry that cannot be read raises and leaves what was entered before |
| SdkClient.Sdk.Initialize | src/sdk/client.py:79-129 | when it succeeds: exactly if the application is up with its buses, both registries can be read and no method has the name of a read-only property; success makes table, cache and attributes agree, and every failure but that of a property keeps them in agreement |
| SdkClient.ProviderQueryClashes | src/sdk/client.py:119-121 | a query class named `ProviderQuery` gives a method that the property `provider` keeps from being installed |
| SdkClient.ClassAttributesAre | src/sdk/client.py:79-235 | the properties and the public attributes of the client by name |
| SdkClient.Sdk.Cleanup | src/sdk/client.py:131-146 | no method remains; it raises exactly when a cached name is a property, or another class attribute without an added one over it; otherwise every attribute with a cached name is gone, and from a state in agreement none remains at all |
| SdkClient.Sdk.GetMethodsByType | src/sdk/client.py:193-217 | the names listed are those of the attributes of that kind; an error before initialisation |
| SdkClient.RunAll | src/sdk/client.py:79-217 | after any sequence of initialisations, failing ones included, and clean-ups in which no handler takes a property's name, all views show the initialisation in force, and commands and queries partition them |
| Provisioning.CreateMachineRequestHandler.Handle | src/application/commands/request_handlers.py:59-310 | for all answers of the surroundings: which machines are saved, whether and with which status and resources the request is saved, which events are published, and when the identifier is returned |
| Provisioning.CreateMachineRequestHandler.ExecuteCommand | src/application/commands/request_handlers.py:67-310 | the same for a validated command, through both exception handlers; dry run depends on the command alone |
| Provisioning.CreateMachineRequestHandler.AttemptProvisioning | src/application/commands/request_handlers.py:152-248 | what has been recorded and saved when the inner block ends or raises, and the status it sets |
| Provisioning.CreateMachineRequestHandler.AddResources | src/application/commands/request_handlers.py:180-194 | the string identifiers are recorded in order up to the first that raises; others are skipped |
| Provisioning.CreateMachineRequestHandler.SaveMachines | src/application/commands/request_handlers.py:203-211 | the machines saved are a prefix of the instances, up to the first unit of work that fails |
| Provisioning.CreateMachineRequestHandler.SaveAndPublish | src/application/commands/request_handlers.py:299-307 | one save, then its events in order up to the first that the publisher refuses |
| Provisioning.ReturnedStatus | src/application/commands/request_handlers.py:137-310 | after any run a command that returned has its request in the store once: completed exactly for a dry run or full delivery, partial exactly for another count above zero, in progress exactly for none, failed exactly when delivery or a later step failed; in terms of the provider's own answer, one that raises or refuses leaves a failed request without resources and no machine |
| Provisioning.CreatedIff | src/application/commands/request_handlers.py:59-135 | a command comes to nothing, and leaves nothing, exactly when it is invalid or something it needs before the request fails |
| Provisioning.StoredAndReturnedIff | src/application/commands/request_handlers.py:137-310 | when a created request is saved and when its identifier is returned, in terms of the answers of the surroundings |
| Provisioning.PublishedIs | src/application/commands/request_handlers.py:289-307 | the events published are those of the save, in order, up to the first refused |
| Provisioning.StringsAre | src/application/commands/request_handlers.py:180-194 | the identifiers recorded are the strings among those delivered, in their order |
| Provisioning.RunKeepsRequestsWhole | src/application/commands/request_handlers.py:202-307 | after any run the machines of a request are a prefix of its instances, all of them unless it is stored as failed, none for a dry run; the request is stored once or, if its saving was never reached or failed, not at all, with the status and resources that were due, the status agreeing with the number of machines stored unless it failed |
| Provisioning.RunAll | src/application/commands/request_handlers.py:67-310 | handling any list of commands one after the other is such a run |
| Provisioning.RunPublishes | src/application/commands/request_handlers.py:289-307 | what is published over a run is what its commands publish, command by command |
| Provisioning.CreateMachineRequestHandler.Resume | src/application/commands/request_handlers.py:92-310 | between two awaits a command either changes nothing or, in its last stretch, does everything it does |
| Provisioning.RunInterleaved | src/application/commands/request_handlers.py:67-310 | however commands interleave at their awaits, each stands where its turns have brought it, and the stores and the events are at any time those of a run of the ended commands in the order in which they ended |
| QueryCache.QueryHandler.BeforeAwait | src/application/base/handlers.py:303-309 | the stretch before the await answers from the table exactly on a usable key that is present, and changes nothing |
| QueryCache.QueryHandler.AfterAwait | src/application/base/handlers.py:312-322 | the stretch after the await returns the result and stores it exactly if key and result allow |
| QueryCache.AnswersAreProduced | src/application/base/handlers.py:303-322 | in every interleaving each answer was produced by executing the query itself or one with the same key |
| QueryCache.UnobservableIffKeyDecides | src/application/base/handlers.py:303-322 | no interleaving makes caching observable exactly when queries with one key have one answer, as far as answers are stored |
| QueryCache.Collision | src/application/base/handlers.py:303-322 | otherwise a schedule in which a call gets another query's answer |
| ReturnRequestsCache.ResponseCache.GetFromCache | src/api/handlers/get_return_requests_handler.py:266-274 | a live entry is answered, an expired one is removed |
| ReturnRequestsCache.ResponseCache.AddToCache | src/api/handlers/get_return_requests_handler.py:284-285 | the entry is stored and the expired ones are swept |
| ReturnRequestsCache.ResponseCache.CleanupCache | src/api/handlers/get_return_requests_handler.py:287-296 | exactly the expired entries go |
| ReturnRequestsCache.ResponseCache.Serve | src/api/handlers/get_return_requests_handler.py:117-127 | what is served is the live entry, unless it is falsy |
| ReturnRequestsCache.RunAll | src/api/handlers/get_return_requests_handler.py:256-296 | any steps carried out on a cache leave what the runs speak of |
| ReturnRequestsCache.CacheHolds | src/api/handlers/get_return_requests_handler.py:256-296 | whatever the clock does, the cache holds exactly the latest additions that no lookup or sweep has found expired |
| ReturnRequestsCache.LookupFollowsLogIff | src/api/handlers/get_return_requests_handler.py:256-296 | a lookup differs from the log of all additions exactly when the log would answer with an addition that was found expired before |
| ReturnRequestsCache.CacheReflectsLog | src/api/handlers/get_return_requests_handler.py:256-296 | with a clock that never runs backwards the cache holds the latest additions, short only of expired ones |
| ReturnRequestsCache.LookupsFollowLog | src/api/handlers/get_return_requests_handler.py:256-296 | with such a clock a lookup answers data exactly when the latest addition under the key brought them and is younger, in numbers, than the duration: eviction cannot be observed |
| ReturnRequestsCache.SweepIsExact | src/api/handlers/get_return_requests_handler.py:287-296 | after an addition exactly the keys remain whose latest addition is younger than the duration |
| ReturnRequestsCache.ServedIsFresh | src/api/handlers/get_return_requests_handler.py:117-127 | what a hit returns was added under its key less than one duration ago |
| ReturnRequestsCache.EvictionObservable | src/api/handlers/get_return_requests_handler.py:256-274 | with a clock that runs backwards a lookup can miss what the log still shows |
| ReturnRequestsFilters.SelectIsSubsequence | src/api/handlers/get_return_requests_handler.py:312-321 | a pass keeps exactly the requests that meet its test, in their order |
| ReturnRequestsFilters.SelectCommutes | src/api/handlers/get_return_requests_handler.py:311-336 | any two passes whose tests do not raise may be swapped |
| ReturnRequestsFilters.FiltersConjoin | src/api/handlers/get_return_requests_handler.py:298-338 | filtering selects by the conjunction of the filters present, and raises exactly on an unreadable time range or, when a machine is asked for, on a request of the right status whose machines cannot be iterated |
| ReturnRequestsFilters.FilteredAre | src/api/handlers/get_return_requests_handler.py:298-338 | in values: kept are the requests of the status, with a machine of the name, created within the bounds |
| ReturnRequestsFilters.FilteringRaisesIff | src/api/handlers/get_return_requests_handler.py:323-336 | in values: what makes filtering raise |
| ReturnRequestsFilters.FilteringIdempotent | src/api/handlers/get_return_requests_handler.py:298-338 | filtering the result again changes nothing |
| Retries.ExecuteWithRetry | src/application/base/provider_handlers.py:301-329 | at most one call more than the retries; every one but the last raised one of the six listed codes, and the last did not if a further call was allowed; capped delays in between; it ends as the last call does exactly unless a further call was allowed and the error's `response` is no mapping |
| Retries.ErrorReplacedIff | src/application/base/provider_handlers.py:307-329 | which attempts make it raise another error than the last attempt's: the first that is not surely retried has an unreadable response and is not the last allowed |
| Retries.ErrorReplaced | src/application/base/provider_handlers.py:357-358 | a network error whose `response` is no mapping is lost as soon as one retry is allowed |
| Retries.ShouldRetryIff | src/application/base/provider_handlers.py:356-372 | an error is retried exactly for one of six codes, and the question raises exactly for a `response` that is no mapping |
| Retries.UncappedIsPrefix | src/application/base/provider_handlers.py:312 | the delays below the cap come first |
| Retries.BackoffMonotone | src/application/base/provider_handlers.py:312 | the delays never shrink and never exceed the cap |
| Retries.BackoffTotal | src/application/base/provider_handlers.py:312 | their sum: a geometric part below the cap and the cap for each other one |
| Retries.HandleProviderOperation | src/application/base/handlers.py:385-413 | every exception is retried until the retries are spent, the last one is raised, and the sleeps grow linearly |
| Retries.LinearTotal | src/application/base/handlers.py:413 | n sleeps take delay times n(n+1)/2 |
| Whitespace.CleanIsText | dev-tools/scripts/clean_whitespace.py:22-30 | a pass strips every line, takes at most one blank line off the end and ends every line with a newline |
| Whitespace.CleanKeepsVisible | dev-tools/scripts/clean_whitespace.py:22-30 | the characters that are not whitespace are the same after a pass, in the same order |
| Whitespace.RStrip | dev-tools/scripts/clean_whitespace.py:24 | what is taken off a line is whitespace at its end, and all of it |
| Whitespace.LinesMakeText | dev-tools/scripts/clean_whitespace.py:23 | the lines and the breaks between them make up the text |
| Whitespace.BreaksEndLines | dev-tools/scripts/clean_whitespace.py:23 | no line holds a break, and every line ends in one but for a last line that is not empty |
| Whitespace.BreaksAreWhole | dev-tools/scripts/clean_whitespace.py:23 | a carriage return and the newline after it are one break |
| Whitespace.SpaceCodes | dev-tools/scripts/clean_whitespace.py:23-24 | the codes of the break and of the whitespace characters |
| Whitespace.SettledIff | dev-tools/scripts/clean_whitespace.py:22-30 | after k passes the text is settled exactly when it had at most k trailing blank lines |
| Whitespace.IdempotentIff | dev-tools/scripts/clean_whitespace.py:22-30 | one pass is enough exactly for at most one trailing blank line |
| Whitespace.FixedPointsAreTidy | dev-tools/scripts/clean_whitespace.py:22-30 | cleaning leaves alone exactly the empty text and the texts without other line breaks or trailing whitespace that end in one newline after a non-empty line |
| AsciiTable.SortKeys | src/cli/formatters.py:127 | the keys of the set in strictly increasing order |
| AsciiTable.BeforeIff | src/cli/formatters.py:127 | the order of the keys is that of their first difference, a proper prefix first |
| AsciiTable.ColumnWidths | src/cli/formatters.py:133-137 | each width is the attained maximum of its header and cells |
| AsciiTable.RowLength | src/cli/formatters.py:143-152 | rows that fit have one length, whatever their cells |
| AsciiTable.RowCell | src/cli/formatters.py:143-152 | cutting a row at a column's offset gives the cell padded with blanks, neither truncated nor shifted |
| AsciiTable.RowSeparator | src/cli/formatters.py:143-152 | a bar between blanks stands between any two columns |
| AsciiTable.FormatTable | src/cli/formatters.py:121-154 | title, header, dashes and one line per item: the padded cells joined by the separator and nothing else, all of the header's length, each column showing its entries |
| Health.HealthCheck.RegisterCheck | src/monitoring/health.py:82-86 | the check is replaced, its history forgotten, and its reports count from here on |
| Health.HealthCheck.Record | src/monitoring/health.py:95-99 | the report is entered last and the history stays the last hundred entries |
| Health.HealthCheck.RunProbe | src/monitoring/health.py:93-108 | the report is that of the very call made; it is entered exactly if that call did not raise |
| Health.HealthCheck.RunCheck | src/monitoring/health.py:88-108 | the whole past after a run: one call of a probe, or for the application check one call of every other check and the verdict on exactly these reports |
| Health.HealthCheck.RunAllChecks | src/monitoring/health.py:110-115 | the past after it is reached by one such round of every check, and the results are the reports of these rounds |
| Health.AllRoundsAdd | src/monitoring/health.py:110-115 | what that adds: two calls of every other check when the application check runs them again, one otherwise, as many entries if it never raises, and for the application check exactly its result |
| Health.HistoryIsEndOfRuns | src/monitoring/health.py:82-108 | at any time the history of a check is the last hundred, or all, of the reports of its calls since its registration that did not raise, in order |
| Health.HealthCheck.RunApplication | src/monitoring/health.py:444-472 | the nested runs end, one call of every other check one after the other, and the verdict is on these reports and is entered |
| Health.ApplicationRound | src/monitoring/health.py:444-472 | such a round enters what the other checks reported without raising, and one verdict |
| Health.HealthCheck.GetStatus | src/monitoring/health.py:117-132 | the last hundred entries and the very last, an error for an unknown name, and the last entry of every check without a name or with the empty one |
| Health.CountLevels | src/monitoring/health.py:451-454 | the counts of the four levels, or a key error on any other |
| Health.CountIsHowMany | src/monitoring/health.py:453-454 | a count is the number of places at which its level stands |
| Health.TallyTotal | src/monitoring/health.py:451-454 | the counts add up to the number of checks |
| Health.Judge | src/monitoring/health.py:450-479 | the verdict is the worst level, unknown ignored, with the counts; a key error makes it unhealthy without counts |

## Left out

- ConfigLoader.Load: does not model file and environment access, `_resolve_file_path` (branches over the file system), `expand_config_env_vars` (src/config/loader.py:159-163) or `os.path.basename` of the explicit path; files are parsed trees that hold an object at the top. A default file that fails to load arrives as an absent one.
- EnvMapping.MappedOverlayIsMergeIff: `_convert_value` is any function from strings to trees, so nothing is said of how a string is read as a number.
- NameConversion.RoundTripIff: is stated for names whose components are of lower-case letters; `str.title` treats a letter after a digit as the start of a word, and such names are outside it.
- SdkClient.Sdk.Initialize: the callables are represented by their method information; names of private fields and of double-underscore attributes are taken not to be discovered.
- SdkClient.Sdk.Cleanup: the application's own clean-up, whose exceptions are suppressed, is not modelled.
- SdkClient.RunAll: operations are those of the class, also when a discovered method of the same name stands over one on the instance.
- Provisioning.CreateMachineRequestHandler.ExecuteCommand: of the request's metadata only the dry-run flag matters; status messages, error details and logging are not modelled. A reply whose logged identifiers cannot be iterated counts as a provider that raises. The aggregate, the stores and the buses are oracles: their own rules are not part of this model.
- Provisioning.RunKeepsRequestsWhole: takes request identifiers to be fresh, as the aggregate generates them.
- Provisioning.RunInterleaved: commands are suspended at the template query and at the provider operation only; saving and publishing do not await.
- QueryCache.AnswersAreProduced: `get_cache_key` and `is_cacheable` are functions of their arguments that do not raise; timing and logging are not modelled.
- ReturnRequestsCache.LookupsFollowLog: keys are taken as they come, so two inputs whose hashes collide share an entry here as in the code; the response's conversion to and from a dictionary is the identity.
- ReturnRequestsFilters.FiltersConjoin: statuses are compared as the strings they stand for, times as integers on one scale, so the error on comparing times with and without a zone is not modelled; every listed machine has a name.
- Retries.ExecuteWithRetry: cancellation during a sleep is not modelled, and sleeps are recorded rather than slept; with a negative number of retries nothing is called, and the type error of raising `None` stands as "no attempt".
- AsciiTable.FormatTable: gives the lines of the table, which the code joins with newlines; how a key becomes a heading is any function.
- Health.HealthCheck.RunAllChecks: a single thread runs the checks, and the time stamps and dependencies of reports are not modelled.
- Health.HealthCheck.RunCheck: running the aggregate asks that it be registered under "application" only, as the code does; under another name it would run itself until the interpreter's recursion limit.
- The whitespace cleaner's file handling, its counters and its choice of files: input and output only.
- The success and failure counters of provider handlers: they would only add easy members.
- Metrics, the lifecycle of resources, clean-up commands, field mapping, and the grace period and formatting of return requests: easy members.
- The other request command handlers: their effect lies in an aggregate that is not part of this model.
- The background thread, alerts and the individual probes of the health checks: they depend on the machine and the clock.
- REST routes, middleware, authentication, command-line parsing and the protocol server: wiring without algorithms of their own.
