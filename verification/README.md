# FlowKit core, modelled in Dafny

This project models the sequential decision logic at the heart of FlowKit, a
toolkit for analysing mobile-network call detail records (CDRs).

It covers five areas:

- **flowmachine** is the query engine. Every query has a fingerprint (`md5`)
  built from its sorted components and memoised on first use. A stored result
  lives in the table `cache.x<md5>`. A query's state (known, queued,
  executing, completed, cancelled, errored, resetting) gates storing,
  fetching and cache invalidation. Invalidation deletes a query's cache
  record and, with `cascade`, the records of every cached query that
  depends on it. The dependency-graph utilities decide which unstored
  dependencies must be stored first, and in what order. `DummyQuery` and
  `JoinToLocation` are two concrete queries. The helpers in `utils.py`
  handle dates, column aliases and nested dictionaries.
- **FlowAPI**'s query endpoints (`run`, `poll`, `get`) turn flowmachine's
  replies into HTTP responses.
- **autoflow**'s tasks select the reference dates a workflow runs for and
  record the runs that failed.
- **flowetl**'s callables pick the files to ingest and trigger one ETL run
  per file. They also record ingestion states and choose between the
  archive and quarantine branches. Its DAG utility builds the ETL DAG and
  its QA checks.
- **FlowAuth**'s user and group administration is a registry with these
  invariants: every user has a personal group, names are unique, there is
  always an admin, and membership is one relation seen from both sides.

One module per source unit:

| module | models |
|---|---|
| `Wrappers`, `Ordering`, `SeqUtil` | `Option`/`Result`; Python's ordering of strings and lists; sequence helpers |
| `QueryStates` | the query state machine |
| `Fingerprint` | `md5`, cache table names, `to_sql`'s name check, `__format__`, `index_cols`, `_make_sql` |
| `DependencyGraph` | `_get_stored_dependencies`, `calculate_dependency_graph`, `unstored_dependencies_graph`, `store_queries_in_order` |
| `CacheInvalidation` | `invalidate_db_cache` |
| `DummyQueries` | `DummyQuery` |
| `Dates`, `NameAlias`, `NestedDicts` | the helpers in `utils.py` |
| `JoinToLocations` | `JoinToLocation` |
| `QueryEndpoints` | FlowAPI's `run_query`, `poll_query`, `get_query_result` |
| `AutoflowTasks` | autoflow's date selection and run bookkeeping |
| `EtlCallables`, `EtlDag` | flowetl's production callables and `get_qa_checks`/`create_dag` |
| `FlowAuthRegistry` | FlowAuth's users, groups and memberships |

Some choices hold throughout the model.

- **Abstracted computations.** Hashing, regular-expression matching, date
  parsing and every database lookup are parameters of the operation that
  uses them, so each property holds for any such function. The same goes
  for `can_process`, `is_done`, `dates_are_available`,
  `stencil_to_date_pairs`, and password strength.
- **Times.** Datetimes are whole microseconds since the epoch, and dates
  are day numbers.
- **Query states.** The state machine's source is not part of this model.
  Its transitions are rebuilt from the state tests and from the event
  sequence `DummyQuery.store` drives. The tests call the finished state
  `EXECUTED`; flowmachine's docstrings and FlowAPI call it `completed`,
  and so does this model (`Completed`).
- **FlowAuth.** The server code is not part of this model. The registry
  follows what the admin tests assert.

## Model

| member | source | states |
|---|---|---|
| QueryStates.Transition | flowmachine/tests/test_query_state.py:115-179 | every accepted event changes the state; `reset` is accepted exactly from the resettable states, and `cancel` exactly from queued and executing |
| QueryStates.TriggerEvent | flowmachine/flowmachine/core/query.py:648-650 | the caller gains ownership exactly when the transition exists; otherwise the state is unchanged |
| QueryStates.OwnershipIsExclusive | flowmachine/flowmachine/core/query.py:648-650 | of two callers triggering the same event in turn, at most one gains ownership |
| QueryStates.HasFinishedOperating | flowmachine/tests/test_query_state.py:52-112 | waits exactly in queued, executing and resetting; answers true exactly in completed; false in known, cancelled and errored |
| QueryStates.CancelQuery | flowmachine/tests/test_query_state.py:115-132 | ends cancelled exactly from queued, executing or cancelled; every other state is left as it was |
| QueryStates.Lifecycle | flowmachine/tests/test_query_state.py:155-168 | enqueue, execute and finish lead from known to completed; reset then finish-reset lead back to known |
| QueryStates.WatchExecuting | flowmachine/tests/test_query_state.py:135-152 | a watched store succeeds on finish, fails as cancelled on cancel, and fails as errored on error |
| Fingerprint.Dependencies | flowmachine/flowmachine/core/query.py:840-869 | the dependencies are exactly the query objects some attribute refers to (directly, as a list or tuple element, or held by a subscriber subsetter), each object once, told apart by identity |
| Fingerprint.DependencyMd5s | flowmachine/flowmachine/core/query.py:100-102 | one md5 per dependency object, in the order of the dependencies |
| Fingerprint.DependencyMd5Count | flowmachine/flowmachine/core/query.py:100-102 | an md5 occurs among the dependency hashes as many times as there are distinct dependency objects carrying it |
| Fingerprint.SeparateObjectsBothContribute | flowmachine/flowmachine/core/query.py:72-83 | two separately built query objects with one md5 (the pool shares their `__dict__`, not their identity) both contribute that md5 |
| Fingerprint.SharedObjectCountsOnce | flowmachine/flowmachine/core/query.py:850-869 | one object referred to from several attributes, with no other object of its md5, contributes its md5 once |
| Fingerprint.SubsetterQueriesAreDependencies | flowmachine/flowmachine/core/query.py:857-867 | a query held by a subscriber subsetter attribute is a dependency and its md5 enters the fingerprint |
| Fingerprint.ElementLeIsTotalPreorder | flowmachine/flowmachine/core/query.py:107-110 | the key that sorts a list attribute's elements is a total preorder, so the sort is well defined |
| Fingerprint.StateText | flowmachine/flowmachine/core/query.py:1041-1061 | an attribute contributes at most one component; one with a bad key, or one that is a query, contributes none |
| Fingerprint.Md5 | flowmachine/flowmachine/core/query.py:86-121 | the result is memoised; a memoised value is returned as is; otherwise the hash of the components is stored |
| Fingerprint.Md5Idempotent | flowmachine/flowmachine/core/query.py:97-99 | asking again gives the same md5 and object |
| Fingerprint.Md5IgnoresLaterChanges | flowmachine/flowmachine/core/query.py:97-99 | once computed, the md5 survives any change to the attributes |
| Fingerprint.ComponentsDetermineMd5 | flowmachine/flowmachine/core/query.py:118-120 | the fingerprint depends only on the multiset of components |
| Fingerprint.Md5IgnoresAttributeOrder | flowmachine/flowmachine/core/query.py:100-120 | reordering the attributes leaves the fingerprint unchanged |
| Fingerprint.Md5IgnoresListOrder | flowmachine/flowmachine/core/query.py:107-110 | permuting a list attribute whose elements are told apart by their keys leaves the fingerprint unchanged |
| Fingerprint.Md5NormalisesTableAll | flowmachine/flowmachine/core/query.py:1056-1061 | a `table` attribute spelling "all" in any case fingerprints like "all" |
| Fingerprint.IterationKeepsMd5 | flowmachine/flowmachine/core/query.py:172-178 | the proxy attribute iteration adds does not change the fingerprint |
| Fingerprint.TableName | flowmachine/flowmachine/core/query.py:717-727 | the table name is `x` followed by the md5 |
| Fingerprint.FullyQualifiedTableName | flowmachine/flowmachine/core/query.py:704-714 | the qualified name is `cache.` followed by the table name `x<md5>` |
| Fingerprint.SchemaAndName | flowmachine/flowmachine/core/query.py:739-740 | a name splits into schema and table exactly when it has one dot, and the parts join back to it |
| Fingerprint.StoredLookupFindsCacheTable | flowmachine/flowmachine/core/query.py:730-742 | the stored check looks up table `x<md5>` in schema `cache` |
| Fingerprint.ToSql | flowmachine/flowmachine/core/query.py:585-665 | a name over 63 characters is refused before any state change; otherwise only a known query is queued, and the caller queued it |
| Fingerprint.CacheTableNamesFit | flowmachine/flowmachine/core/query.py:53 | a cache table name for an md5 of at most 62 characters is never refused |
| Fingerprint.DescribeAttributes | flowmachine/flowmachine/core/query.py:160-167 | succeeds exactly when every requested attribute exists; otherwise it names the first missing one |
| Fingerprint.Format | flowmachine/flowmachine/core/query.py:137-170 | an empty format gives `<Query of type: C>`; otherwise it succeeds exactly when every comma-separated attribute exists, and an error names one of them |
| Fingerprint.FormatListsRequestedAttributes | flowmachine/flowmachine/core/query.py:158-170 | formatting lists each requested attribute with its value, in order |
| Fingerprint.FormatRejectsUnknownAttribute | flowmachine/tests/test_query.py:142-159 | `query_id,foo` is refused as naming the invalid attribute `foo` |
| Fingerprint.IndexCols | flowmachine/flowmachine/core/query.py:995-1028 | the location columns are indexed, first, exactly when all are columns; then the subscriber identifier exactly when it is a column, or else the quoted `subscriber` when that is a column; a query without a `subscriber_identifier` attribute gets no subscriber index; every indexed column is a column |
| Fingerprint.IndexStatements | flowmachine/flowmachine/core/query.py:543-548 | one `CREATE INDEX` per index entry, in order |
| Fingerprint.MakeSql | flowmachine/flowmachine/core/query.py:511-549 | nothing exactly when the table exists; otherwise the `EXPLAIN ... CREATE TABLE <schema>.<name> AS` statement selecting the columns from the query, then `CREATE INDEX ON <schema>.<name> (<columns>)` for each index entry, in order |
| Fingerprint.DailyLocationIndexes | flowmachine/flowmachine/core/query.py:1006-1009 | a daily location with a `name` location column and a `subscriber` column indexes `[name]` then `"subscriber"` |
| Fingerprint.DailyLocationSql | flowmachine/flowmachine/core/query.py:540-548 | storing that query as `cache.xabc` creates the indexes `(name)` and `("subscriber")` on `cache.xabc` |
| Fingerprint.MissingIdentifierNoSubscriberIndex | flowmachine/flowmachine/core/query.py:1019-1027 | without a `subscriber_identifier` attribute a `subscriber` column is not indexed; only the location index can be added |
| DependencyGraph.NodeName | flowmachine/flowmachine/utils.py:439-464 | a node is named `x<md5>` |
| DependencyGraph.NodeNameInjective | flowmachine/flowmachine/utils.py:439-464 | distinct queries get distinct nodes |
| DependencyGraph.StoredReach | flowmachine/flowmachine/core/query.py:871-898 | the stored queries a query builds on are all stored |
| DependencyGraph.Undiscovered | flowmachine/flowmachine/core/query.py:889-890 | only references not found yet are searched |
| DependencyGraph.Discover | flowmachine/flowmachine/core/query.py:871-898 | the search only adds stored queries to what it has found |
| DependencyGraph.DiscoverFindsStoredReach | flowmachine/flowmachine/core/query.py:871-898 | the search finds exactly the stored queries reachable without passing through another stored query |
| DependencyGraph.SkippingDiscoveredLosesNothing | flowmachine/flowmachine/core/query.py:889-890 | skipping references already found loses no stored dependency |
| DependencyGraph.GetStoredDependencies | flowmachine/flowmachine/core/query.py:871-898 | the stored dependencies are stored and never include the query itself |
| DependencyGraph.StoredQueryNeedsNothing | flowmachine/flowmachine/core/query.py:889-898 | a stored query, not excluded, has no stored dependencies to report |
| DependencyGraph.StoredReferenceIsFound | flowmachine/flowmachine/core/query.py:889-898 | a stored direct reference is always reported |
| DependencyGraph.SearchStopsAtStoredQuery | flowmachine/flowmachine/core/query.py:889-898 | the search does not descend below a stored dependency |
| DependencyGraph.AllNodes | flowmachine/flowmachine/utils.py:439-464 | the nodes reachable from a query include its own |
| DependencyGraph.AllEdges | flowmachine/flowmachine/utils.py:439-464 | there is an edge from a query to each query it references |
| DependencyGraph.CalculateDependencyGraph | flowmachine/flowmachine/utils.py:385-467 | the graph has one node per reachable query and one edge per reference; each node records whether its query is stored |
| DependencyGraph.OpenStep | flowmachine/flowmachine/utils.py:439-464 | taking a visit and pushing its references leaves exactly that node and its parent edge to account for, with less work left |
| DependencyGraph.UnstoredBelow | flowmachine/flowmachine/utils.py:531-546 | the queries left to store are all unstored |
| DependencyGraph.UnstoredDependenciesGraph | flowmachine/flowmachine/utils.py:531-546 | empty for a stored query; otherwise exactly the unstored queries reached through unstored ones, none stored, with the references among them |
| DependencyGraph.UnstoredGraphOmitsQuery | flowmachine/flowmachine/utils.py:531-546 | the query itself is never among the queries to store before it |
| DependencyGraph.UnstoredGraphIsSubgraph | flowmachine/flowmachine/utils.py:531-546 | every node to store is a node of the full dependency graph |
| DependencyGraph.UnstoredExample | flowmachine/tests/test_query.py:162-188 | in the five-query example with only `dummy3` stored, exactly `dummy2` and `dummy4` remain |
| DependencyGraph.StoreQueriesInOrder | flowmachine/flowmachine/utils.py:547-557 | stores are started for exactly the nodes whose store does not raise, each once, and never before a query it references |
| CacheInvalidation.StateOf | flowmachine/flowmachine/core/query.py:922-923 | a query without a recorded state is known |
| CacheInvalidation.Dependents | flowmachine/flowmachine/core/query.py:935-941 | exactly the cached queries recorded as depending on the query |
| CacheInvalidation.StartReset | flowmachine/flowmachine/core/query.py:943-956 | deletes only the query's record, drops its table only when asked, and marks only it as resetting |
| CacheInvalidation.StartResetTakesOver | flowmachine/flowmachine/core/query.py:922-923 | starting a reset takes the query, and only it, out of the resettable states |
| CacheInvalidation.FinishReset | flowmachine/flowmachine/core/query.py:984 | finishing a reset makes only that query known again |
| CacheInvalidation.Invalidate | flowmachine/flowmachine/core/query.py:900-992 | only deletes and resets; a known query is already invalidated, a resetting one waits, a queued or executing one fails; success exactly when the query ends known |
| CacheInvalidation.OwnerReset | flowmachine/flowmachine/core/query.py:925-984 | the caller that owns the reset only deletes and resets, and ends with the query known or still resetting |
| CacheInvalidation.CascadeAll | flowmachine/flowmachine/core/query.py:963-972 | invalidating the dependents in turn only deletes and resets |
| CacheInvalidation.OnlyResetsShrinksResettables | flowmachine/flowmachine/core/query.py:963-972 | a cascade step never adds a resettable query, which bounds the recursion |
| CacheInvalidation.WithoutCascadeOnlyItself | flowmachine/flowmachine/core/query.py:963-974 | without `cascade` only the query's own record can go |
| CacheInvalidation.WithoutDropTableStays | flowmachine/flowmachine/core/query.py:951-956 | without `drop` the query's table stays |
| CacheInvalidation.CascadeLeavesNoDangling | flowmachine/flowmachine/core/query.py:963-972 | a cascading invalidation removes the query and leaves no cached query depending on a removed one |
| CacheInvalidation.OwnerResetLeavesNoDangling | flowmachine/flowmachine/core/query.py:925-984 | likewise for the caller owning the reset |
| CacheInvalidation.CascadeAllLeavesNoDangling | flowmachine/flowmachine/core/query.py:963-972 | invalidating a set of dependents removes all of them and leaves nothing dangling |
| CacheInvalidation.InvalidationStaysWithinDependents | flowmachine/flowmachine/core/query.py:935-972 | nothing outside the query and its transitive dependents is touched |
| CacheInvalidation.OwnerResetStaysWithinDependents | flowmachine/flowmachine/core/query.py:935-972 | likewise for the caller owning the reset |
| CacheInvalidation.CascadeAllStaysWithinDependents | flowmachine/flowmachine/core/query.py:963-972 | likewise for a set of dependents |
| CacheInvalidation.SecondResetWaits | flowmachine/tests/test_query_state.py:155-168 | invalidating a query another caller is resetting waits |
| CacheInvalidation.ExecutingQueryResetFails | flowmachine/tests/test_query_state.py:171-179 | invalidating an executing query fails |
| CacheInvalidation.CascadeExample | flowmachine/flowmachine/core/query.py:963-972 | invalidating a query with one cached dependent removes both records |
| Dates.TimeOfDay | flowmachine/flowmachine/utils.py:113-124 | the time of day is within a day and, with the day, gives back the time |
| Dates.ListOfDates | flowmachine/flowmachine/utils.py:61-88 | refused exactly when stop is before start; otherwise one date per day from start, as many as the day difference plus one |
| Dates.DayOfAddDays | flowmachine/flowmachine/utils.py:75-88 | adding whole days to a time moves its date by that many days |
| Dates.ListOfDatesIsInclusiveRange | flowmachine/flowmachine/utils.py:75-88 | from one day to another, the dates are every day of the range, both ends included |
| Dates.UnitMicros | flowmachine/flowmachine/utils.py:91-124 | every known unit is a positive length; days and hours have their lengths |
| Dates.TimePeriodAdd | flowmachine/flowmachine/utils.py:91-124 | an unknown unit is refused; otherwise the result is the date of the moved time, printed without a time exactly when the moved time falls in its day's first second |
| Dates.AddDaysToDate | flowmachine/flowmachine/utils.py:113-124 | adding days to a date gives the bare later date |
| Dates.HoursAsDays | flowmachine/flowmachine/utils.py:91-124 | 24 n hours and n days give the same text |
| Dates.HalfDayKeepsTime | flowmachine/flowmachine/utils.py:113-124 | twelve hours after midnight prints the date with the time 12:00:00 |
| DummyQueries.DummyMd5 | flowmachine/flowmachine/core/dummy_query.py:24-29 | the dummy md5 is `dummy_query_` followed by the base fingerprint, memoised as the base one is |
| DummyQueries.DummyMd5Injective | flowmachine/flowmachine/core/dummy_query.py:24-29 | two dummy md5s are equal exactly when their base fingerprints are |
| DummyQueries.StateIn | flowmachine/flowmachine/core/dummy_query.py:38-44 | a query without a recorded state is known |
| DummyQueries.IsStored | flowmachine/flowmachine/core/dummy_query.py:38-44 | stored exactly when the state machine records the query as completed; a query with no recorded state is not stored |
| DummyQueries.Store | flowmachine/flowmachine/core/dummy_query.py:46-53 | storing runs enqueue, execute and finish on this query's state and changes no other query's |
| DummyQueries.StoreFromKnownStores | flowmachine/flowmachine/core/dummy_query.py:38-53 | storing a known dummy query leaves it stored |
| DummyQueries.StoreOfExecutingQueryFinishesIt | flowmachine/flowmachine/core/dummy_query.py:38-53 | storing a dummy query already executing elsewhere finishes it |
| DummyQueries.Explain | flowmachine/flowmachine/core/dummy_query.py:55-63 | succeeds exactly for the JSON format, in any case, with one plan of total cost 0.0 |
| DummyQueries.ExplainExamples | flowmachine/flowmachine/core/dummy_query.py:55-63 | `json`, `JSON` and `Json` are accepted; `text`, `jsonb` and the empty format are refused |
| NameAlias.StripLeft | flowmachine/flowmachine/utils.py:242-247 | drops exactly the leading white space |
| NameAlias.StripRight | flowmachine/flowmachine/utils.py:242-247 | drops exactly the trailing white space |
| NameAlias.Strip | flowmachine/flowmachine/utils.py:245-247 | the result is a slice of the input with only white space cut on each side, and neither starts nor ends with white space |
| NameAlias.StripUnspaced | flowmachine/flowmachine/utils.py:242-247 | stripping a string without outer white space keeps it |
| NameAlias.FindAs | flowmachine/flowmachine/utils.py:243 | the first place ` as ` starts, in any case, or the length when there is none |
| NameAlias.SplitAs | flowmachine/flowmachine/utils.py:243 | one piece exactly when there is no ` as `, and then the whole column; otherwise the first piece is the text before the first match |
| NameAlias.FoundIffMatch | flowmachine/flowmachine/utils.py:243 | the search finds a match exactly when the column holds ` as ` |
| NameAlias.SplitAsRebuilds | flowmachine/flowmachine/utils.py:243 | putting the matched separators back between the pieces gives back the column |
| NameAlias.SplitAsPiecesUnmatched | flowmachine/flowmachine/utils.py:243 | no piece holds ` as ` |
| NameAlias.AfterLastAs | flowmachine/flowmachine/utils.py:243 | the text from there follows the last match and holds none |
| NameAlias.SplitAsLast | flowmachine/flowmachine/utils.py:243 | the last piece is the text after the last match |
| NameAlias.GetNameAndAlias | flowmachine/flowmachine/utils.py:227-247 | without ` as `, the stripped column and its part after the last dot; with it, the stripped text before the first match |
| NameAlias.AliasAfterLastMatch | flowmachine/flowmachine/utils.py:246-247 | with ` as `, the alias is the stripped text after the last match |
| NameAlias.FirstMatchIsSeparator | flowmachine/flowmachine/utils.py:242 | in `name as alias` the first match is the separator |
| NameAlias.SplitAtSeparator | flowmachine/flowmachine/utils.py:242 | `name as alias` splits into the name and the alias |
| NameAlias.NameAndAliasRoundTrip | flowmachine/flowmachine/utils.py:227-247 | the name and alias written as `name as alias` are read back |
| NameAlias.NoAliasUsesLastPart | flowmachine/flowmachine/utils.py:244-247 | without an alias the alias is the column's last dotted part |
| NameAlias.DottedColumnAlias | flowmachine/flowmachine/utils.py:227-247 | `table.col` gives `table.col` and `col` |
| NestedDicts.Get | flowmachine/flowmachine/utils.py:271-278 | a key is found exactly when present, with one of its entries |
| NestedDicts.Assign | flowmachine/flowmachine/utils.py:271-278 | assignment adds the key; a new key goes at the end |
| NestedDicts.AssignGet | flowmachine/flowmachine/utils.py:271-278 | after assignment the key reads the new value and every other key is unchanged |
| NestedDicts.AssignDistinct | flowmachine/flowmachine/utils.py:271-278 | assignment keeps keys distinct |
| NestedDicts.BuildDict | flowmachine/flowmachine/utils.py:271-278 | the dictionary built from pairs has their keys |
| NestedDicts.BuildDictGet | flowmachine/flowmachine/utils.py:271-278 | each key reads the last value given for it |
| NestedDicts.BuildDictDistinct | flowmachine/flowmachine/utils.py:271-278 | the built dictionary has distinct keys |
| NestedDicts.BuildDictOfDistinct | flowmachine/flowmachine/utils.py:271-278 | pairs with distinct keys build themselves |
| NestedDicts.KeyText | flowmachine/flowmachine/utils.py:273 | `str` of a key: strings as they are, integers in decimal, `True`/`False`, `None` |
| NestedDicts.ConvertDictKeysToStrings | flowmachine/flowmachine/utils.py:256-278 | every key at every level becomes a string; a non-dict is unchanged; a dict's keys are the texts of its keys |
| NestedDicts.ConvertLastValueWins | flowmachine/flowmachine/utils.py:271-277 | keys with the same text collapse to the last converted value |
| NestedDicts.ConvertStringKeyedUnchanged | flowmachine/flowmachine/utils.py:256-278 | a value already keyed by strings throughout is unchanged |
| NestedDicts.ConvertIdempotent | flowmachine/flowmachine/utils.py:256-278 | converting twice is converting once |
| NestedDicts.ConvertCollision | flowmachine/flowmachine/utils.py:271-277 | `{1: a, "1": b}` becomes `{"1": b}` |
| NestedDicts.ConvertNested | flowmachine/flowmachine/utils.py:271-278 | nested keys and `None` are converted too |
| Ordering.Sort | flowmachine/flowmachine/utils.py:322 | `sorted` gives a permutation of its input, in order |
| Ordering.SortIsStable | flowmachine/flowmachine/utils.py:322 | `sorted` is stable: elements ranking equal keep their relative order |
| NestedDicts.SortRecursively | flowmachine/flowmachine/utils.py:302-324 | the result is in sorted form; scalars are unchanged; a list is a permutation that keeps the order of elements ranking equal; a dict keeps its keys and holds each value sorted recursively |
| NestedDicts.DistinctSortedAscending | flowmachine/flowmachine/utils.py:318 | a dict's sorted keys are strictly ascending |
| NestedDicts.SortedFormFixed | flowmachine/flowmachine/utils.py:302-324 | a value already in sorted form is unchanged |
| NestedDicts.SortRecursivelyIdempotent | flowmachine/flowmachine/utils.py:302-324 | sorting twice is sorting once |
| JoinToLocations.MakeJoinToLocation | flowmachine/flowmachine/core/join_to_location.py:49-58 | refused exactly for the cell-level spatial unit; otherwise keeps its arguments |
| JoinToLocations.GetAttr | flowmachine/flowmachine/core/join_to_location.py:60-68 | hidden names are refused; others come from the left query first, then from the spatial unit |
| JoinToLocations.RemoveFirst | flowmachine/flowmachine/core/join_to_location.py:73-76 | removes exactly the first occurrence, keeping the rest in order; a missing column leaves the list as it is |
| JoinToLocations.RemoveColumns | flowmachine/flowmachine/core/join_to_location.py:72-76 | removes one occurrence per right column found on the left, keeping the rest in order |
| JoinToLocations.RemoveColumnsDropsEarliest | flowmachine/flowmachine/core/join_to_location.py:72-76 | removing the right columns in turn drops, for each name, its earliest occurrences on the left, as many as the right holds |
| JoinToLocations.RepeatedColumnLosesFirst | flowmachine/flowmachine/core/join_to_location.py:73-76 | a location column occurring twice on the left loses its first occurrence and keeps the second |
| JoinToLocations.KeptLeftColumns | flowmachine/flowmachine/core/join_to_location.py:70-77 | the left columns less the earliest occurrence of each location column, in order |
| JoinToLocations.ColumnNames | flowmachine/flowmachine/core/join_to_location.py:70-77 | the kept left columns followed by the location columns |
| JoinToLocations.DisjointColumnsKept | flowmachine/flowmachine/core/join_to_location.py:70-77 | without a shared column the columns are the left ones followed by the location ones |
| JoinToLocations.ColumnNamesDistinct | flowmachine/flowmachine/core/join_to_location.py:70-77 | with distinct columns on each side, every column appears once |
| JoinToLocations.SelectList | flowmachine/flowmachine/core/join_to_location.py:79-96 | the select list takes the kept columns from the left query and the location columns from the sites |
| JoinToLocations.SelectListMatchesColumnNames | flowmachine/flowmachine/core/join_to_location.py:79-96 | the query selects the columns `column_names` reports, in order |
| JoinToLocations.JoinRows | flowmachine/flowmachine/core/join_to_location.py:97-103 | the join holds exactly the pairs of a row and a site that satisfy the condition |
| JoinToLocations.Matches | flowmachine/flowmachine/core/join_to_location.py:97-103 | a row is paired with exactly the sites it joins |
| JoinToLocations.UnboundedSiteJoinsAll | flowmachine/flowmachine/core/join_to_location.py:97-103 | a site without service dates joins every row at its location |
| JoinToLocations.LastDayIncluded | flowmachine/flowmachine/core/join_to_location.py:97-103 | any time on the last day of service joins; the next day does not |
| JoinToLocations.DroppingBoundKeepsRows | flowmachine/flowmachine/core/join_to_location.py:97-103 | a missing bound never loses a row |
| QueryEndpoints.RunQuery | flowapi/flowapi/query_endpoints.py:15-36 | an error is 403 with its message; an accepted query is 202 with a Location to poll it; any other status is 403; accepted without an id fails |
| QueryEndpoints.PollQuery | flowapi/flowapi/query_endpoints.py:39-68 | as written: an error reply fails on the empty key; a done reply redirects exactly when completed, otherwise echoes state and message |
| QueryEndpoints.PollQueryCorrected | flowapi/flowapi/query_endpoints.py:51-52 | an error reply passes its message on under status `error`; everything else as written |
| QueryEndpoints.PollErrorReplyLosesMessage | flowapi/flowapi/query_endpoints.py:51-52 | every error reply fails as written, the corrected handler shows its message, and the two agree on every other reply |
| QueryEndpoints.PollCode | flowapi/flowapi/query_endpoints.py:62-68 | 202 exactly for executing or queued, 500 exactly for errored or cancelled, 404 otherwise |
| QueryEndpoints.GetQueryResult | flowapi/flowapi/query_endpoints.py:71-122 | 200 exactly on success, streaming the result as a chunked JSON attachment named after the query; errors by state, with the reply's or an unexpected-state message |
| QueryEndpoints.GetErrorCode | flowapi/flowapi/query_endpoints.py:85-103 | 202 exactly for executing or queued, 403 exactly for errored, 404 exactly for awol or known, 500 otherwise |
| QueryEndpoints.GetStatusCodeTable | flowapi/tests/unit/test_get_query.py:67-78 | the rows of the status-code test table |
| QueryEndpoints.StateNameInjective | flowapi/flowapi/query_endpoints.py:56-68 | distinct states have distinct names |
| QueryEndpoints.PollAgreesWithStateMachine | flowapi/flowapi/query_endpoints.py:56-68 | a poll redirects exactly when the query finished successfully, and asks to wait exactly while it is queued or executing |
| QueryEndpoints.PollAndGetAgree | flowapi/flowapi/query_endpoints.py:56-103 | poll and get agree on running and unknown queries; an errored query is 500 when polled, 403 when fetched |
| QueryEndpoints.AttachmentNamesQuery | flowapi/flowapi/query_endpoints.py:104-122 | the attachment's file name gives back the query id |
| AutoflowTasks.GetTag | autoflow/autoflow/tasks.py:53-55 | flow name and parameter hash, plus `_<date>` exactly when a date is given |
| AutoflowTasks.TagsTellDatesApart | autoflow/autoflow/tasks.py:53-55 | different reference dates give different tags |
| AutoflowTasks.GetDateRanges | autoflow/autoflow/tasks.py:83-85 | the stencil's date pairs, or those of `[0]` when there is none |
| AutoflowTasks.NoStencilIsReferenceDate | autoflow/autoflow/tasks.py:83-85 | no stencil is the stencil `[0]` |
| AutoflowTasks.SelectedTypes | autoflow/autoflow/tasks.py:127-147 | every CDR type when none is requested, otherwise the requested types FlowDB has |
| AutoflowTasks.DatesOf | autoflow/autoflow/tasks.py:140-146 | exactly the dates of the selected types |
| AutoflowTasks.UnknownTypes | autoflow/autoflow/tasks.py:134-138 | the requested types FlowDB lacks; none when no type is requested |
| AutoflowTasks.GetAvailableDates | autoflow/autoflow/tasks.py:127-147 | as written: raises exactly when no known type is selected; otherwise the union in strictly increasing order, with the unknown types reported |
| AutoflowTasks.NoKnownTypeRaises | autoflow/autoflow/tasks.py:139-147 | requesting only unknown types, or none at all, raises |
| AutoflowTasks.GetAvailableDatesOrEmpty | autoflow/autoflow/tasks.py:139-147 | corrected: the union is empty when no known type is selected |
| AutoflowTasks.OrEmptyAgrees | autoflow/autoflow/tasks.py:139-147 | the corrected date lookup agrees with the original wherever the original answers, and is empty where it raises |
| AutoflowTasks.OnlyUnknownTypeRaises | autoflow/autoflow/tasks.py:139-147 | a request for one unknown type raises as written; the corrected task gives no dates and reports the type |
| AutoflowTasks.FilterDatesByEarliestDate | autoflow/autoflow/tasks.py:171-177 | unchanged without an earliest date; otherwise exactly the dates on or after it, in order |
| AutoflowTasks.EarliestDateFilterIdempotent | autoflow/autoflow/tasks.py:171-177 | filtering twice is filtering once |
| AutoflowTasks.FilterDatesByStencil | autoflow/autoflow/tasks.py:211-224 | unchanged without a stencil; otherwise exactly the dates whose stencil is available, in order |
| AutoflowTasks.FilterDatesByPreviousRuns | autoflow/autoflow/tasks.py:248-257 | exactly the dates that may be processed, in order |
| AutoflowTasks.RecordAnyFailedWorkflows | autoflow/autoflow/tasks.py:367-390 | every run not done is recorded as failed, the rest are untouched, and the flow step fails exactly when one was not done |
| EtlCallables.Digits | flowetl/etl/etl/production_task_callables.py:177 | exactly `w` decimal digits |
| EtlCallables.DigitsRoundTrip | flowetl/etl/etl/production_task_callables.py:177 | reading back the digits of a number that fits gives the number |
| EtlCallables.DateStamp | flowetl/etl/etl/production_task_callables.py:177 | `%Y%m%d` is eight digits |
| EtlCallables.DateStampRoundTrip | flowetl/etl/etl/production_task_callables.py:177 | the stamp of a date reads back as its year, month and day |
| EtlCallables.DateStampInjective | flowetl/etl/etl/production_task_callables.py:177 | distinct dates have distinct stamps |
| EtlCallables.RecordIngestionState | flowetl/etl/etl/production_task_callables.py:39-45 | a missing `cdr_type` or `cdr_date` raises, in that order; otherwise exactly the configured pair gets the new state |
| EtlCallables.RecordIngestionStateIdempotent | flowetl/etl/etl/production_task_callables.py:39-45 | recording a state twice is recording it once |
| EtlCallables.SuccessBranch | flowetl/etl/etl/production_task_callables.py:55-67 | quarantine exactly when init, extract, transform or load failed; archive exactly when none did |
| EtlCallables.OneFailureQuarantines | flowetl/etl/etl/production_task_callables.py:55-67 | one failed checked task is enough to quarantine |
| EtlCallables.UnprocessedFiles | flowetl/etl/etl/production_task_callables.py:123-140 | exactly the listed files that are not ignored, fully match with a parsed date, and may be processed, in listing order |
| EtlCallables.FindUnprocessedDatesFromFiles | flowetl/etl/etl/production_task_callables.py:119-141 | raises exactly when a matched file's date does not parse, naming the first such file; otherwise keyed by file, exactly the files not ignored that fully match, with their date, when that date may be processed |
| EtlCallables.FileDate | flowetl/etl/etl/production_task_callables.py:123-133 | a date exactly when the name fully matches the pattern and its first group parses |
| EtlCallables.FirstBadDate | flowetl/etl/etl/production_task_callables.py:129-133 | none exactly when every matched file's date parses; otherwise the first matched file, in listing order, whose date does not |
| EtlCallables.UnprocessedInNameOrder | flowetl/etl/etl/production_task_callables.py:171-175 | over a strictly ascending listing the files to ingest come in ascending name order |
| EtlCallables.SortedDistinctNames | flowetl/etl/etl/production_task_callables.py:171 | a directory listing, whose names are distinct, sorts into strictly ascending order |
| EtlCallables.DagId | flowetl/etl/etl/production_task_callables.py:185 | `etl_` followed by the CDR type |
| EtlCallables.AsciiUpper | flowetl/etl/etl/production_task_callables.py:187 | lower-case ASCII letters are raised, everything else kept |
| EtlCallables.RunIdStem | flowetl/etl/etl/production_task_callables.py:187 | the upper-cased CDR type, `_`, the date stamp and `-` |
| EtlCallables.TriggerConf | flowetl/etl/etl/production_task_callables.py:178-183 | the configuration carries exactly the CDR type, date, file name and template path |
| EtlCallables.TriggeredRunRecordsItsPair | flowetl/etl/etl/production_task_callables.py:39-45 | a triggered run records its state under its own CDR type and date |
| EtlCallables.RunIdsTellDatesApart | flowetl/etl/etl/production_task_callables.py:187 | runs of one CDR type on different dates get different run ids |
| EtlCallables.CsvTriggers | flowetl/etl/etl/production_task_callables.py:168-190 | raises exactly when a matched file's date does not parse, naming the first in name order; otherwise one run per listed file that is not ignored, matches with a parsed date and may be processed, triggered in strictly ascending file-name order when the listing has no repeated name |
| EtlCallables.AsTriggers | flowetl/etl/etl/production_task_callables.py:177-190 | one run per dictionary entry, in the dictionary's insertion order, with that entry's file and date |
| EtlCallables.SortedSameNames | flowetl/etl/etl/production_task_callables.py:171 | sorting the listing keeps its names |
| EtlCallables.ProductionTrigger | flowetl/etl/etl/production_task_callables.py:160-198 | completes exactly when every configured type is known, has a CSV source with a pattern, and every matched file's date parses |
| EtlCallables.ProductionTriggerSound | flowetl/etl/etl/production_task_callables.py:160-198 | every triggered run is for a file to ingest of a configured CSV source |
| EtlCallables.ProductionTriggerInConfigOrder | flowetl/etl/etl/production_task_callables.py:160-198 | the runs triggered are, in configuration order, the runs of every entry before the first one that raises, each entry's runs in its own order |
| EtlCallables.CompletingPrefix | flowetl/etl/etl/production_task_callables.py:160-198 | the entries before the first one that raises all complete, and the one after them does not |
| EtlCallables.CompletingHeadRuns | flowetl/etl/etl/production_task_callables.py:160-190 | an entry that completes triggers its runs first and leaves the outcome of the rest unchanged |
| EtlCallables.FailingHeadRunsNothing | flowetl/etl/etl/production_task_callables.py:160-198 | when the first entry raises, the callable triggers no run at all |
| EtlCallables.ProductionTriggerComplete | flowetl/etl/etl/production_task_callables.py:160-198 | when the callable completes, every file to ingest has had its run triggered |
| EtlCallables.UnparseableDateRaises | flowetl/etl/etl/production_task_callables.py:129-133 | a matched file whose date does not parse raises before any run of its type is triggered |
| EtlCallables.SqlSourceRaises | flowetl/etl/etl/production_task_callables.py:191-196 | an SQL source raises at once and nothing after it is triggered |
| EtlDag.ParsePath | flowetl/flowetl/flowetl/util.py:44-49 | parts are non-empty, never `.`, and contain no `/` |
| EtlDag.Stem | flowetl/flowetl/flowetl/util.py:54-60 | the name less its last suffix; a leading or trailing dot is no suffix |
| EtlDag.ParentStem | flowetl/flowetl/flowetl/util.py:54 | empty when the parent is `.`; otherwise the stem of the parent directory |
| EtlDag.PathLeIsTotalOrder | flowetl/flowetl/flowetl/util.py:64 | paths are totally ordered, so sorting them is well defined |
| EtlDag.ValidStems | flowetl/flowetl/flowetl/util.py:50-53 | `qa_checks`, and the DAG's CDR type when it has one |
| EtlDag.ApplicableTemplates | flowetl/flowetl/flowetl/util.py:44-54 | exactly the listed QA templates whose parent is a valid stem |
| EtlDag.TaskId | flowetl/flowetl/flowetl/util.py:58-60 | the stem for a default check, `<stem>.<cdr_type>` otherwise |
| EtlDag.SortPaths | flowetl/flowetl/flowetl/util.py:64 | a sorted permutation of the paths |
| EtlDag.GetQaChecks | flowetl/flowetl/flowetl/util.py:12-65 | refused exactly without a DAG or context DAG; appends the default checks directory, keeping the rest; one check per applicable template, in path order |
| EtlDag.QaCheckSelection | flowetl/flowetl/flowetl/util.py:44-65 | a check is in the list exactly when it is the check of a listed QA template whose parent is a valid stem |
| EtlDag.QaChecksComeFromTemplates | flowetl/flowetl/flowetl/util.py:44-65 | every check is the check of an applicable template |
| EtlDag.StemDropsSuffix | flowetl/flowetl/flowetl/util.py:58-60 | the stem of `base.suffix` is `base` |
| EtlDag.DefaultCheckId | flowetl/flowetl/flowetl/util.py:58-60 | a default check is named by its template's stem |
| EtlDag.CdrTypeCheckId | flowetl/flowetl/flowetl/util.py:58-60 | a check in a CDR type's directory is named `<stem>.<cdr_type>` |
| EtlDag.DagTasks | flowetl/flowetl/flowetl/util.py:211-291 | the fixed tasks, the cluster task exactly when clustered, and the checks |
| EtlDag.DagEdges | flowetl/flowetl/flowetl/util.py:278-291 | every check follows `attach`; extraction leads to the cluster task exactly when clustered, and the cluster task leads to constraints and indexes |
| EtlDag.CreateDag | flowetl/flowetl/flowetl/util.py:200-291 | refused unless view and table, or file name and fields, are given; view staging exactly when both view arguments are; file-flux sensor exactly with a file name; cluster task exactly with a cluster field |
| EtlDag.ViewStagingTakesPrecedence | flowetl/flowetl/flowetl/util.py:211-218 | view staging wins when both kinds of source are given |
| EtlDag.CreateDagIsAcyclic | flowetl/flowetl/flowetl/util.py:278-291 | every dependency joins two of the DAG's tasks and goes forward in rank, so the DAG has no cycle |
| EtlDag.DagEdgesShape | flowetl/flowetl/flowetl/util.py:278-291 | each dependency joins two fixed tasks in rank order, or runs from `attach` to a check |
| FlowAuthRegistry.Code | flowauth/backend/tests/test_user_and_groups_admin.py:63-76 | 404 exactly for a missing entity; every other refusal is 400 |
| FlowAuthRegistry.Body | flowauth/backend/tests/test_user_and_groups_admin.py:63-92 | each asserted refusal names its bad field: username, password, is_admin or groupname |
| FlowAuthRegistry.NextId | flowauth/backend/tests/test_user_and_groups_admin.py:294-349 | a fresh id, positive and above every id in use, one above the largest |
| FlowAuthRegistry.UserNames | flowauth/backend/tests/test_user_and_groups_admin.py:212-239 | exactly the names of existing users |
| FlowAuthRegistry.GroupNames | flowauth/backend/tests/test_user_and_groups_admin.py:392-414 | exactly the names of existing groups |
| FlowAuthRegistry.Initial | flowauth/backend/tests/test_user_and_groups_admin.py:352-358 | the registry with one admin satisfies every invariant |
| FlowAuthRegistry.InitialListings | flowauth/backend/tests/test_user_and_groups_admin.py:352-369 | it lists one user and no groups, and the admin's personal group carries their name |
| FlowAuthRegistry.GroupsOf | flowauth/backend/tests/test_user_and_groups_admin.py:6-30 | exactly the groups the user belongs to |
| FlowAuthRegistry.GetUser | flowauth/backend/tests/test_user_and_groups_admin.py:6-30 | missing exactly for an unknown id; otherwise the user's fields, personal group and groups |
| FlowAuthRegistry.UserGroups | flowauth/backend/tests/test_user_and_groups_admin.py:524-576 | exactly the user's groups other than personal ones |
| FlowAuthRegistry.UserGroup | flowauth/backend/tests/test_user_and_groups_admin.py:33-42 | a user's personal group exists and is a personal group |
| FlowAuthRegistry.GroupMembers | flowauth/backend/tests/test_user_and_groups_admin.py:469-521 | exactly the group's members |
| FlowAuthRegistry.ListUsers | flowauth/backend/tests/test_user_and_groups_admin.py:352-358 | exactly the users, by id and name |
| FlowAuthRegistry.ListGroups | flowauth/backend/tests/test_user_and_groups_admin.py:361-369 | exactly the groups that are not personal groups |
| FlowAuthRegistry.CreateUser | flowauth/backend/tests/test_user_and_groups_admin.py:6-30 | refuses an empty or taken name, a missing or weak password, in that order; otherwise adds exactly one user under a fresh id and leaves the others |
| FlowAuthRegistry.AddUserValid | flowauth/backend/tests/test_user_and_groups_admin.py:6-30 | adding a user with fresh ids and an unused name keeps every invariant |
| FlowAuthRegistry.CreateUserValid | flowauth/backend/tests/test_user_and_groups_admin.py:6-30 | creating a user keeps every invariant |
| FlowAuthRegistry.AddedUserView | flowauth/backend/tests/test_user_and_groups_admin.py:6-42 | a new user is neither admin nor two-factor, belongs only to their personal group, and is its only member |
| FlowAuthRegistry.CreatedUserView | flowauth/backend/tests/test_user_and_groups_admin.py:6-42 | likewise for a created user |
| FlowAuthRegistry.FirstUserIds | flowauth/backend/tests/test_user_and_groups_admin.py:6-30 | the first user created next to the admin gets id 2 and personal group 2 |
| FlowAuthRegistry.SetAdmin | flowauth/backend/tests/test_user_and_groups_admin.py:45-60 | the edit sets only the admin flag |
| FlowAuthRegistry.EditUser | flowauth/backend/tests/test_user_and_groups_admin.py:45-168 | an unknown id is not found; an empty name, a name another user has, a weak password and demoting the only admin are each refused with their own error, and the edit is refused exactly in those cases; otherwise only that user changes, taking the edited fields |
| FlowAuthRegistry.ReplaceUserNames | flowauth/backend/tests/test_user_and_groups_admin.py:212-239 | a user keeping their name or taking an unused one keeps names unique |
| FlowAuthRegistry.ReplaceUserAdmin | flowauth/backend/tests/test_user_and_groups_admin.py:45-60 | changing a user who stays admin, or is not the only admin, leaves an admin |
| FlowAuthRegistry.ReplaceUserValid | flowauth/backend/tests/test_user_and_groups_admin.py:133-168 | such a change keeps every invariant |
| FlowAuthRegistry.EditUserValid | flowauth/backend/tests/test_user_and_groups_admin.py:133-168 | editing a user keeps every invariant |
| FlowAuthRegistry.RenameKeepsPersonalGroup | flowauth/backend/tests/test_user_and_groups_admin.py:133-168 | renaming a user keeps their personal group and its name |
| FlowAuthRegistry.DeleteUser | flowauth/backend/tests/test_user_and_groups_admin.py:242-291 | unknown id is refused; refused exactly for the only admin; otherwise removes the user, their personal group and their memberships |
| FlowAuthRegistry.RemoveUserValid | flowauth/backend/tests/test_user_and_groups_admin.py:253-291 | removing a user who is not the only admin keeps every invariant |
| FlowAuthRegistry.DeleteUserValid | flowauth/backend/tests/test_user_and_groups_admin.py:253-291 | deleting a user keeps every invariant |
| FlowAuthRegistry.OnlyAdminProtected | flowauth/backend/tests/test_user_and_groups_admin.py:45-60 | the only admin can be neither deleted nor demoted, and stays an admin |
| FlowAuthRegistry.RemoveAddedUser | flowauth/backend/tests/test_user_and_groups_admin.py:253-349 | removing a user just added gives back the registry before |
| FlowAuthRegistry.CreateThenDelete | flowauth/backend/tests/test_user_and_groups_admin.py:253-291 | deleting a user just created gives back the registry before |
| FlowAuthRegistry.ReAddDeletedUser | flowauth/backend/tests/test_user_and_groups_admin.py:294-349 | after deletion the same name can be created again |
| FlowAuthRegistry.CreateGroup | flowauth/backend/tests/test_user_and_groups_admin.py:372-414 | refused exactly for a taken name; otherwise adds one empty, non-personal group under a fresh id |
| FlowAuthRegistry.CreateGroupValid | flowauth/backend/tests/test_user_and_groups_admin.py:372-389 | creating a group keeps every invariant |
| FlowAuthRegistry.CreatedGroupView | flowauth/backend/tests/test_user_and_groups_admin.py:372-389 | a new group is listed and has no members |
| FlowAuthRegistry.EditGroup | flowauth/backend/tests/test_user_and_groups_admin.py:417-441 | unknown id is refused; a name another group has is refused; otherwise only that group's name changes |
| FlowAuthRegistry.EditGroupValid | flowauth/backend/tests/test_user_and_groups_admin.py:417-441 | renaming a group keeps every invariant |
| FlowAuthRegistry.DeleteGroup | flowauth/backend/tests/test_user_and_groups_admin.py:444-466 | unknown id is refused; a personal group is refused; otherwise the group and its memberships go |
| FlowAuthRegistry.DeleteGroupValid | flowauth/backend/tests/test_user_and_groups_admin.py:444-466 | deleting a group keeps every invariant, and the group is then not found |
| FlowAuthRegistry.SetGroupMembers | flowauth/backend/tests/test_user_and_groups_admin.py:469-521 | refused exactly for an unknown group or member; otherwise the group's members become exactly the given users |
| FlowAuthRegistry.SetGroupMembersBothSides | flowauth/backend/tests/test_user_and_groups_admin.py:469-521 | a user is listed as a member exactly when the group is among the user's groups |
| FlowAuthRegistry.ClearGroupMembers | flowauth/backend/tests/test_user_and_groups_admin.py:495-521 | an empty member list clears the group on both sides |
| FlowAuthRegistry.SetUserGroups | flowauth/backend/tests/test_user_and_groups_admin.py:524-576 | refused exactly for an unknown user or group; otherwise the user's groups become the given ones, keeping the personal group |
| FlowAuthRegistry.SetUserGroupsBothSides | flowauth/backend/tests/test_user_and_groups_admin.py:524-576 | a group lists the user exactly when it is among the user's groups |
| FlowAuthRegistry.ClearUserGroups | flowauth/backend/tests/test_user_and_groups_admin.py:550-576 | an empty group list leaves the user in no non-personal group |

## Left out

- SQL text and execution are not modelled. That covers `get_query`, `get_dataframe*`, `head`, `explain` on real queries, and `write_query` inside `to_sql`. "The table exists", "the query is stored" and "the dependents of a query" are lookups on the modelled cache.
- Threads, futures and redis are not modelled. `store` submitting work is modelled as the sequence of state events it triggers, and the blocking loops as a "waits" answer without time.
- MD5, regular expressions and date parsing are parameters: an uninterpreted hash, a full-match-and-group function, and a parser to day numbers that may fail. A failed parse is the error `pendulum.parse` raises, and it ends the callable. `parse_datestring` is not modelled.
- EtlCallables.FileDate: a filename pattern without a capture group makes `m.group(1)` raise `IndexError`. The matcher parameter always yields a group, so that error is not modelled.
- Fingerprint.Md5: the hash is a function of the sorted component list, not MD5 itself. `__setstate__` and the alias `get_table` are not modelled.
- Fingerprint.StateText: the text of a subscriber subsetter, of a dictionary (its `json.dumps`) and of any other value is given as a string, because those objects' `__str__` is not part of this model.
- CacheInvalidation.Invalidate: dependents are visited in an unspecified order (the SQL has no ORDER BY). Cache records are deleted without their `cache.dependencies` rows, which the ORM does not cascade. Dropping the alias table named by `name`/`schema` is not modelled.
- Cache scoring, eviction, `touch_cache` and `write_query_to_cache` are not part of this model. Their source is not available.
- Dates.TimePeriodAdd: does not model the `OverflowError` Python raises when the moved time passes year 9999; day numbers are unbounded.
- `to_nested_list`'s ordering of list elements is a parameter of `NestedDicts.SortRecursively`, required to be a total preorder. Python's comparison of mixed types is not modelled.
- NestedDicts.ConvertDictKeysToStrings: Python's equality of `True` and `1` as dictionary keys is not modelled. Keys are told apart by their type.
- DependencyGraph.CalculateDependencyGraph: nodes are keyed by md5, so queries with the same md5 are merged into one node. The model assumes, as the source does, that the same md5 means the same dependency subtree.
- `print_dependency_tree`, `plot_dependency_graph` and the attribute collection for graph nodes are presentation only, and are not modelled.
- QueryStates.Transition: the state machine's source is not part of this model. Transitions the tests do not pin down are assumptions. These are reset from cancelled or errored, and error from queued.
- QueryEndpoints.GetQueryResult: the streamed body is named by the SQL it runs; streaming itself is not modelled. Claim checking and `url_for` rendering are left to the web framework.
- autoflow's `record_workflow_in_process`, `record_workflow_done`, `record_workflow_failed`, `mappable_dict` and the notebook and PDF tasks are not modelled. They write one row or call external tools.
- flowetl's `production_trigger__callable__OLD` is superseded and not modelled. `trigger_dag` is not modelled either; a triggered run is its configuration and run-id stem, and the UUID suffix is left out.
- EtlCallables.DateStamp: years below 1000 and above 9999 are outside `ValidDate`, since `%Y` does not pad them to four digits.
- EtlCallables.AsciiUpper: `str.upper` is modelled on ASCII letters only.
- EtlDag.CreateDag: operator parameters (pools, timeouts, retries, SQL texts) are not modelled. Airflow's rejection of duplicate task ids is not modelled either.
- FlowAuth's HTTP layer, CSRF, login, password hashing, two-factor secrets, servers and tokens are not modelled. Password strength is a parameter, and passwords are not stored.
- FlowAuthRegistry.CreateUser: several things here are model choices. The tests assert each check, but not their order. A user name that an existing group already has is refused with `GroupNameExists`, since the personal group could not take it. A rejected create returns no registry, so it leaves no user.
- FlowAuthRegistry.EditUser: the tests assert each refusal alone, so the order of the checks is a model choice, and so is refusing a rename to another user's name. Only switching two-factor off is modelled, which is what the tests exercise; a request switching it on leaves it as it was.
- FlowAuthRegistry.DeleteGroup: deleting a personal group is refused. The tests do not cover it.
- FlowAuthRegistry.Body: the message for deleting the only admin is not asserted by the tests, so it has no body here.
- FlowAuthRegistry.NextId: ids are one above the largest in use, which reuses the id of a deleted last user, as the re-add test shows.

## Findings

| source | as written | input that shows it | evidently intended | confidence | as-written member | corrected member |
|---|---|---|---|---|---|---|
| autoflow/autoflow/tasks.py:139-147 | `set.union(*[...])` with an empty list calls `set.union()` with no argument, which raises `TypeError` | `cdr_types=["sms"]` when FlowDB has no `sms` data: the warning is issued, then `get_available_dates` raises | no known type selected gives no dates | not executed | AutoflowTasks.GetAvailableDates, shown by AutoflowTasks.OnlyUnknownTypeRaises | AutoflowTasks.GetAvailableDatesOrEmpty, proved by AutoflowTasks.OrEmptyAgrees |
| flowapi/flowapi/query_endpoints.py:51-52 | the error branch reads `reply[""]`, a key flowmachine's replies do not carry, so the handler raises `KeyError` | any poll reply with status `error`, such as one for an unknown query id | pass on `reply["msg"]` under status `error` | not executed | QueryEndpoints.PollQuery, shown by QueryEndpoints.PollErrorReplyLosesMessage | QueryEndpoints.PollQueryCorrected, proved by QueryEndpoints.PollErrorReplyLosesMessage and used by QueryEndpoints.PollAgreesWithStateMachine |
