# Verified model of the SubQuery Ethereum node

The Ethereum node of SubQuery decides which blocks to fetch, fetches them in JSON-RPC batches, indexes
them and rewinds when the chain forks. This project models five of its parts in Dafny and proves what
they promise. Verify everything with `dafny verify dfyconfig.toml`.

**Dictionary queries** (`Strings`, `Datasources`, `BlockFilters`, `Dictionary`, `DictionaryV1`,
`DictionaryV2`, `CoverageV1`, `CoverageV2`, `AddressLimit`, `ProjectCoverage`, `FreshValues`, `OwnEntries`,
`ForgottenAddresses`, `GroupingPreservation`, `DroppedHandlers`, `LostRecords`, `ChainIndexing`). Handlers of
the manifest are grouped, their addresses merged, and each group becomes a condition of a query that selects
blocks from a dictionary; the handlers' own filters run afterwards on what came back. A query that is too narrow silently loses data. The project
proves, for each kind of handler, the exact condition under which a query entry misses nothing that the
filter accepts; for whole projects, the exact condition under which they lose records; and from both, when
indexing the selected blocks makes the same handler calls as indexing every block. The builders are
imperative methods proved equal to specification functions (`V1Query`, `QueryV2`), about which the results
are stated. A dictionary is a set of log and transaction records with lower-case addresses; the function
column is null for the input `0x` and otherwise its first four bytes; an empty query means that the
dictionary is not used; in V2 an empty list constrains nothing and `data` matches input prefixes. Keccak
hashing of signatures is an uninterpreted function with canonical results. Records are those that a node can
serve (`WellFormedLog`, `WellFormedTx`): 20-byte addresses, a sender for every transaction, 32-byte topics and
input data in lower-case hex. Where a result needs a value that no handler tests, it assumes that the
flattened list of handlers fits a JavaScript array (`FitsArray`).

The exact conditions are these. A V1 event entry is complete iff the topics up to the first `!null` are
signatures or canonical 32-byte topics and nothing follows that `!null` (`FaithfulTopics`), or the handler
accepts nothing, because it tests an address or a topic that no log can have. The filter stops at the first
`!null`, the query does not. A V1 call entry is complete iff function selectors are four bytes long and merged
addresses do not override a `to` filter or a missing filter object (`FaithfulCall`), or the handler accepts
nothing (`HopelessCall`). V2 is never narrower than V1 except for `to: ''` (`WiderCall`). Results about logs
ask these conditions of event groups only, results about transactions of call groups only.

Groups can make up for each other, so for whole projects the question is another one. `V1LosesLogsExactly`,
`V1LosesTransactionsExactly` and their V2 counterparts answer it for every manifest: a project loses records
iff the dictionary is used and some handler accepts records, under some address, that no group covers, where
`CoversLogs`, `CoversCalls` and their V2 counterparts compare two handlers of the manifest field by field.
`DictionarySufficesExactly` carries this on to handler calls.

Within the address limit, grouping never changes the selected logs. It can change the selected transactions:
when datasources with and without an address share a filter with `to`, the merged entry tests that `to` and
forgets the addresses (`MergingForgetsAnAddress`). `GroupingKeepsSelectedTransactionsExactly` says when that
shows: the selection is unchanged iff for each forgotten address some group's entry is no stricter.

V2 drops a handler that nothing narrows, where V1 stops using the dictionary. A dropped handler makes a
project lose data iff no block handler without `modulo` turns the dictionary off, some group is kept, and no
kept group of the kind tests nothing (`DroppedEventExactly`, `DroppedCallExactly`). `DroppedHandlerMissesLogs`
gives a manifest.

**JSON-RPC batching** (`AdaptiveSize`, `BatchReplies`, `BatchProtocol`, `BatchProvider`). A state machine
of sends, flushes, timers and replies in any order (section 6 of the JSON-RPC 2.0 Specification), with
theorems over all runs, and the provider class, whose invariant is that it is in the state its history
of events leads to.

**Fork detection** (`UnfinalizedBlocks`). The check and the walk back on chains without finality, with
theorems over all runs of the indexer. The first stored pair is never compared (`hasForked` returns
early for lists of up to two headers), so the link invariant starts at the second header;
`FirstPairIsNotChecked` shows that the exception is real.

**Indexing** (`BlockIndexing`, `CallOrder`, `LightBlocks`). Which handler calls a block leads to, and in which
order, and exactly when skipping transactions leaves them unchanged.

**ABI names** (`AbiSignatures`, `AbiNames`). The argument printer is inverted by a parser, so overload
names never clash; `FixedTupleArraysClash` shows what the printer loses: of the array suffixes of a tuple it keeps
only `[]`.

Where code and comments differ the code is followed. The guard
`!handler.filter && !addresses?.length` of both query builders never fires, because a group always lists
an address, possibly undefined (`GroupsAreDistinct`).

## Model

| member | source | states |
|---|---|---|
| Strings.HexStringEqIsNumericEquality | packages/node/src/utils/string.ts:8-17 | the comparison fails exactly on non-hex input, and otherwise decides equality of the numbers denoted, for any lengths and letter case |
| Strings.CanonicalTopicsCompareAsStrings | packages/node/src/utils/string.ts:8-17 | on 32-byte lower-case topics the comparison is plain string equality, the link between filter and query |
| Strings.CanonicaliseDenotesTheSame | packages/node/src/utils/string.ts:12-17 | any number that fits 32 bytes has one canonical topic, which the comparison accepts |
| Strings.OversizedNeverEqual | packages/node/src/utils/string.ts:12-17 | a longer number equals no topic |
| Strings.SignatureCache.Topic | packages/node/src/utils/string.ts:19-30 | the cache never changes the answer: hex input is returned as is, everything else hashes as if uncached |
| Strings.SignatureCache.Sighash | packages/node/src/utils/string.ts:32-44 | the same for function selectors |
| Strings.OnlySignaturesAreHashed | packages/node/src/utils/string.ts:22-44 | hex input is a topic or selector already and returned as is; everything else is hashed |
| Datasources.GroupByIsPartition | packages/node/src/indexer/dictionary/utils.ts:25-27 | one non-empty group for each distinct key, holding exactly the pairs of that key in their order |
| Datasources.GroupByKeepsFirstOrder | packages/node/src/indexer/dictionary/utils.ts:25-29 | groups come in the order in which their keys first occur |
| Datasources.KeysAgreeExactly | packages/node/src/indexer/dictionary/utils.ts:25-27 | two handlers are grouped together iff they are of one kind and their filters print alike; names do not matter |
| Datasources.PairHasGroup | packages/node/src/indexer/dictionary/utils.ts:9-38 | every datasource/handler pair is in a group that lists its address |
| Datasources.GroupAddressHasPair | packages/node/src/indexer/dictionary/utils.ts:29-35 | every address of a group comes from a datasource with a handler of that key |
| Datasources.GroupsAreDistinct | packages/node/src/indexer/dictionary/utils.ts:29-35 | groups have distinct keys and list at least one address, none twice |
| Datasources.GroupExactly | packages/node/src/indexer/dictionary/utils.ts:29-35 | a group has the handler of its first pair, and lists the addresses of its pairs in the order of their first occurrences |
| Collections.UniqByExactly | packages/node/src/indexer/dictionary/v1/ethDictionaryV1.ts:210-216 | deduplication keeps the elements whose key occurs first, in their order, and no others |
| Datasources.PairsAreHandlers | packages/node/src/indexer/dictionary/utils.ts:12-23 | the flattened pairs are exactly the handlers under their datasource's address |
| BlockFilters.FilterLogs | packages/node/src/ethereum/block.ethereum.ts:85-117 | the loop computes the verdict function for every log, filter and address, errors included |
| BlockFilters.TopicsVerdictMeans | packages/node/src/ethereum/block.ethereum.ts:96-116 | a log passes iff every topic before the first `!null` is equal and that one is present; later topics are never looked at |
| BlockFilters.TopicsErrorExactly | packages/node/src/ethereum/block.ethereum.ts:96-116 | the loop throws iff it reaches a present topic that cannot be compared as hex |
| BlockFilters.FourTopicsAreLookedAt | packages/node/src/ethereum/block.ethereum.ts:96-97 | topics after the fourth are never looked at, and the first four are |
| BlockFilters.SameKeySameFilter | packages/node/src/indexer/dictionary/utils.ts:25-27 | handlers of one group accept the same logs and transactions under any address |
| DictionaryV1.ConditionList.ApplyAddresses | packages/node/src/indexer/dictionary/v1/ethDictionaryV1.ts:34-64 | appends one address condition, or none when an address is missing or there are too many |
| DictionaryV1.ConditionList.RenameAddressToTo | packages/node/src/indexer/dictionary/v1/ethDictionaryV1.ts:108-112 | rewrites the address field to `to` in place and nothing else |
| DictionaryV1.ConditionList.PushTopics | packages/node/src/indexer/dictionary/v1/ethDictionaryV1.ts:72-94 | appends one condition for each constrained topic, in order |
| DictionaryV1.EventFilterToQueryEntry | packages/node/src/indexer/dictionary/v1/ethDictionaryV1.ts:66-99 | builds the entry whose meaning `EventEntryMeans` gives |
| DictionaryV1.CallFilterToQueryEntry | packages/node/src/indexer/dictionary/v1/ethDictionaryV1.ts:101-166 | builds the entry whose meaning `CallEntryMeans` gives |
| DictionaryV1.BuildQueryEntries | packages/node/src/indexer/dictionary/v1/ethDictionaryV1.ts:169-217 | the loop with its early returns computes `V1Query` |
| DictionaryV1.UniqKeepsMatches | packages/node/src/indexer/dictionary/v1/ethDictionaryV1.ts:210-216 | deduplication leaves the selected records unchanged |
| DictionaryV1.SameConditionsSameKey | packages/node/src/indexer/dictionary/v1/ethDictionaryV1.ts:212-215 | entries that test each field once have one key exactly when they have the same conditions in any order |
| DictionaryV1.BuiltEntriesSameKeyExactly | packages/node/src/indexer/dictionary/v1/ethDictionaryV1.ts:210-216 | built entries do test each field once, so two of them are duplicates exactly when they have the same conditions |
| CoverageV1.EventEntryMeans | packages/node/src/indexer/dictionary/v1/ethDictionaryV1.ts:66-99 | which logs an event entry selects, in terms of addresses and topics |
| CoverageV1.CallEntryMeans | packages/node/src/indexer/dictionary/v1/ethDictionaryV1.ts:101-166 | which transactions a call entry selects |
| AddressLimit.LogAddressDoesNotMatter | packages/node/src/indexer/dictionary/v1/ethDictionaryV1.ts:34-63 | beyond the address limit, or with an address missing, whether V1 and V2 select a log does not depend on its address |
| AddressLimit.OnlyOwnRecipientMatters | packages/node/src/indexer/dictionary/v1/ethDictionaryV1.ts:101-146 | and of a transaction's recipient only the filter's own `to` is tested |
| AddressLimit.OnlyListedAreSelected | packages/node/src/indexer/dictionary/v2/ethDictionaryV2.ts:41-57 | otherwise V1 and V2 select only records of listed addresses, and of those all that pass the other conditions |
| AddressLimit.AddressConditionExactly | packages/node/src/indexer/dictionary/v1/ethDictionaryV1.ts:43-63 | one address is tested for equality, several for membership, in lower case |
| CoverageV1.EventCoverageIsExact | packages/node/src/ethereum/block.ethereum.ts:85-117 | an event entry misses no accepted log iff the topics are faithful or the address is one that no log can have, whatever addresses were merged |
| CoverageV1.CallCoverageIsExact | packages/node/src/ethereum/block.ethereum.ts:44-83 | a call entry misses no accepted transaction iff the handler accepts none or is faithful under the merged addresses |
| CoverageV1.CallSoundnessIsExact | packages/node/src/indexer/dictionary/v1/ethDictionaryV1.ts:101-166 | within the address limit an entry selects only accepted transactions iff it selects none or the handler is sound |
| ProjectCoverage.QueryMatchesIffGroupDoes | packages/node/src/indexer/dictionary/v1/ethDictionaryV1.ts:172-216 | a used query selects a record iff the entry of some group does |
| ProjectCoverage.V1QueryHasNoDuplicates | packages/node/src/indexer/dictionary/v1/ethDictionaryV1.ts:210-216 | no two entries have the same entity and, in any order, the same conditions; kept are the first of each kind, in group order |
| ProjectCoverage.V1CoversLogs | packages/node/src/indexer/dictionary/v1/ethDictionaryV1.ts:169-217 | with faithful event groups the V1 query is unused or misses no log that some handler accepts |
| ProjectCoverage.V1CoversTransactions | packages/node/src/indexer/dictionary/v1/ethDictionaryV1.ts:169-217 | the same for transactions and call groups |
| ProjectCoverage.V1SelectsOnlyWantedLogs | packages/node/src/indexer/dictionary/v1/ethDictionaryV1.ts:38-94 | within the address limit no selected log is unwanted, faithful or not |
| ProjectCoverage.V1IsExactForLogs | packages/node/src/indexer/dictionary/v1/ethDictionaryV1.ts:38-94 | with faithful event groups within the address limit a used query selects exactly the accepted logs |
| ProjectCoverage.V1IsExactForTransactions | packages/node/src/indexer/dictionary/v1/ethDictionaryV1.ts:101-166 | the same for transactions, including groups mixing datasources with and without address |
| ProjectCoverage.RegularManifest | packages/node/src/indexer/dictionary/v1/ethDictionaryV1.ts:101-166 | conditions on single handlers of one kind that make all groups of that kind faithful, sound and wider |
| ProjectCoverage.RegularEventsAreCovered | packages/node/src/indexer/dictionary/v1/ethDictionaryV1.ts:169-217 | a statement about manifests alone: with regular event handlers a used V1 query misses no accepted log, and V2 then neither |
| ProjectCoverage.RegularCallsAreCovered | packages/node/src/indexer/dictionary/v1/ethDictionaryV1.ts:169-217 | the same for regular call handlers and transactions |
| GroupingPreservation.GroupingKeepsSelectedLogs | packages/node/src/indexer/dictionary/utils.ts:9-38 | within the limit, grouping, address merging and deduplication select exactly the logs that one entry for each handler and address would select, for every manifest and log |
| ForgottenAddresses.MergingKeepsTransactionsExactly | packages/node/src/indexer/dictionary/v1/ethDictionaryV1.ts:101-166 | a merged call entry selects what the entries of its addresses select together iff no address is forgotten |
| ForgottenAddresses.MergingForgetsAnAddress | packages/node/src/indexer/dictionary/v1/ethDictionaryV1.ts:101-143 | a group whose merged entry loses transactions of one of its addresses |
| GroupingPreservation.GroupingKeepsSelectedTransactionsExactly | packages/node/src/indexer/dictionary/utils.ts:9-38 | for whole projects the selected transactions are unchanged iff for each forgotten address some group's entry is no stricter |
| ProjectCoverage.BlockHandlerDisablesQueries | packages/node/src/indexer/dictionary/v1/ethDictionaryV1.ts:180-184 | a block handler without `modulo` anywhere in the manifest turns both dictionaries off |
| DictionaryV2.CallFilterToCondition | packages/node/src/indexer/dictionary/v2/ethDictionaryV2.ts:59-108 | builds the lists whose meaning `CallConditionsMean` gives |
| DictionaryV2.EventFilterToCondition | packages/node/src/indexer/dictionary/v2/ethDictionaryV2.ts:110-135 | builds the lists whose meaning `EventConditionsMean` gives |
| DictionaryV2.BuildQueryEntry | packages/node/src/indexer/dictionary/v2/ethDictionaryV2.ts:137-211 | the loop, its early returns and the clean-up compute `QueryV2` |
| CoverageV2.EventConditionsMean | packages/node/src/indexer/dictionary/v2/ethDictionaryV2.ts:110-135 | which logs V2 conditions select; `!null` constrains nothing |
| CoverageV2.CallConditionsMean | packages/node/src/indexer/dictionary/v2/ethDictionaryV2.ts:59-108 | which transactions V2 conditions select; functions match by prefix |
| CoverageV2.EventConditionsAreWider | packages/node/src/indexer/dictionary/v2/ethDictionaryV2.ts:110-135 | V2 selects every log that V1 selects for the handler |
| CoverageV2.CallConditionsAreWiderExactly | packages/node/src/indexer/dictionary/v2/ethDictionaryV2.ts:72-90 | V2 selects every transaction that V1 selects for the handler iff it has no unmatchable empty `to`, or V1 selects none |
| CoverageV2.EventCoverageIsExactV2 | packages/node/src/indexer/dictionary/v2/ethDictionaryV2.ts:110-135 | V2 conditions miss no accepted log iff the topics are faithful for V2 or the address is one that no log can have |
| CoverageV2.CallCoverageIsExactV2 | packages/node/src/indexer/dictionary/v2/ethDictionaryV2.ts:59-108 | V2 conditions miss no accepted transaction iff the handler accepts none or `to` is not overridden or empty |
| ProjectCoverage.V2IsUsedToo | packages/node/src/indexer/dictionary/v2/ethDictionaryV2.ts:160-211 | whenever V1 uses the dictionary V2 does |
| ProjectCoverage.V2MatchesIffGroupDoes | packages/node/src/indexer/dictionary/v2/ethDictionaryV2.ts:160-211 | a used V2 query selects a record iff the conditions of some group do |
| ProjectCoverage.V2IsNeverNarrowerForLogs | packages/node/src/indexer/dictionary/v2/ethDictionaryV2.ts:110-135 | a used V1 query selects no log that the V2 query misses, whatever the manifest |
| ProjectCoverage.V2IsNeverNarrowerForTransactions | packages/node/src/indexer/dictionary/v2/ethDictionaryV2.ts:59-108 | the same for transactions, unless a call handler has an unmatchable empty `to` |
| ProjectCoverage.V2CoversLogs | packages/node/src/indexer/dictionary/v2/ethDictionaryV2.ts:160-211 | a V2 query that runs through and drops no event handler misses no accepted log, given topics faithful for V2 |
| ProjectCoverage.V2CoversTransactions | packages/node/src/indexer/dictionary/v2/ethDictionaryV2.ts:160-211 | the same for transactions and call handlers |
| DroppedHandlers.V2IsUsedExactly | packages/node/src/indexer/dictionary/v2/ethDictionaryV2.ts:160-211 | V2 uses the dictionary iff no block handler lacks `modulo` and some group is kept |
| DroppedHandlers.V2ListsExactly | packages/node/src/indexer/dictionary/v2/ethDictionaryV2.ts:137-158 | a V2 query has log conditions iff some event group is kept and transaction conditions iff some call group is; no list is empty or repeats conditions |
| DroppedHandlers.SelectsAllLogsExactly | packages/node/src/indexer/dictionary/v2/ethDictionaryV2.ts:110-135 | a V2 query selects every log iff some kept event group tests neither addresses nor topics: constraints never add up to everything |
| DroppedHandlers.SelectsAllTransactionsExactly | packages/node/src/indexer/dictionary/v2/ethDictionaryV2.ts:59-108 | the same for transactions and call groups |
| DroppedHandlers.DroppedEventExactly | packages/node/src/indexer/dictionary/v2/ethDictionaryV2.ts:193-205 | a dropped event handler loses logs iff V2 stops at no group, keeps some, and keeps no event group that tests nothing |
| DroppedHandlers.DroppedCallExactly | packages/node/src/indexer/dictionary/v2/ethDictionaryV2.ts:179-192 | the same for a dropped call handler and transactions |
| DroppedHandlers.FaithfulV2LosesLogsExactly | packages/node/src/indexer/dictionary/v2/ethDictionaryV2.ts:160-211 | with topics faithful for V2, a project loses logs iff in addition some event handler is dropped |
| DroppedHandlers.FaithfulV2LosesTransactionsExactly | packages/node/src/indexer/dictionary/v2/ethDictionaryV2.ts:160-211 | the same for transactions and call handlers |
| DroppedHandlers.DroppedHandlerMissesLogs | packages/node/src/indexer/dictionary/v2/ethDictionaryV2.ts:193-205 | for any token address, a manifest for which V1 is unused and V2 misses a wanted log |
| LostRecords.V1LosesLogsExactly | packages/node/src/indexer/dictionary/v1/ethDictionaryV1.ts:169-217 | a project loses logs under V1 iff V1 stops at no group and some handler accepts logs, under some address, that no group's entry covers, address by address and topic by topic |
| LostRecords.V1LosesTransactionsExactly | packages/node/src/indexer/dictionary/v1/ethDictionaryV1.ts:169-217 | the same for transactions, with the inputs up to one selector long that the handler accepts |
| LostRecords.V2LosesLogsExactly | packages/node/src/indexer/dictionary/v2/ethDictionaryV2.ts:160-211 | a project loses logs under V2 iff V2 is used and some handler, dropped or kept, accepts logs that no kept group covers |
| LostRecords.V2LosesTransactionsExactly | packages/node/src/indexer/dictionary/v2/ethDictionaryV2.ts:160-211 | the same for transactions, decided by the shortest accepted input |
| ChainIndexing.SelectionSufficesExactly | packages/node/src/indexer/indexer.manager.ts:111-161 | without block handlers, indexing the selected blocks of any chain makes exactly the handler calls of indexing all blocks iff the selection misses no accepted record |
| ChainIndexing.DictionarySufficesExactly | packages/node/src/indexer/dictionary/v1/ethDictionaryV1.ts:169-217 | for a used V1 or V2 query that is so iff the project loses no logs and no transactions |
| ChainIndexing.RegularProjectsAreIndexed | packages/node/src/indexer/dictionary/v1/ethDictionaryV1.ts:169-217 | a project of regular event and call handlers is indexed from either dictionary as if every block were fetched |
| AdaptiveSize.AdjustIsWindowed | packages/node/src/ethereum/ethers/json-rpc-batch-provider.ts:218-236 | after every call size and counters are what the windows of ten say: at most 8 successes lower, 10 raise, 9 keep |
| AdaptiveSize.SizeStaysInBounds | packages/node/src/ethereum/ethers/json-rpc-batch-provider.ts:225-230 | from size b the size stays between min(1, b) and max(10, b) |
| AdaptiveSize.SteadySuccess | packages/node/src/ethereum/ethers/json-rpc-batch-provider.ts:228-230 | k successful windows raise a size b of at most 10 to min(10, b + k) |
| AdaptiveSize.SteadyFailure | packages/node/src/ethereum/ethers/json-rpc-batch-provider.ts:226-228 | k failed windows lower a size b of at least 1 to max(1, b - k) |
| BatchReplies.SettlePrefixSettles | packages/node/src/ethereum/ethers/json-rpc-batch-provider.ts:123-214 | settling a batch settles each of its requests once, with its own settlement, and no other |
| BatchReplies.ResolvedMeansOwnPayload | packages/node/src/ethereum/ethers/json-rpc-batch-provider.ts:159-196 | a request resolves only with the result of the last payload bearing its id, which reports no error |
| BatchReplies.RegularSettlements | packages/node/src/ethereum/ethers/json-rpc-batch-provider.ts:159-196 | in a regular reply, up to the first payload that throws, a request is rejected as missing iff no payload bears its id, and otherwise settled as the last one that does says |
| BatchReplies.ThrowingSettlements | packages/node/src/ethereum/ethers/json-rpc-batch-provider.ts:166-214 | the first request not settled from its payload is the one whose payload has an error without message; it and all later ones are rejected with the exception |
| BatchReplies.IrregularReplies | packages/node/src/ethereum/ethers/json-rpc-batch-provider.ts:118-157 | any other reply rejects every request for one reason that says what came back, and reports a failure iff it is about the size or the rate |
| BatchReplies.RegularOutcomes | packages/node/src/ethereum/ethers/json-rpc-batch-provider.ts:178-198 | a regular reply reports one failure for each request answered with a complaint about size or rate, then one success unless a payload threw |
| BatchReplies.ComplaintsExactly | packages/node/src/ethereum/ethers/json-rpc-batch-provider.ts:178-186 | complaints are two exact messages and three texts inside of any message |
| BatchReplies.ChainIdHasOrigin | packages/node/src/ethereum/ethers/json-rpc-batch-provider.ts:191-193 | the cache changes only to the result of a chain-id request of the batch |
| BatchReplies.CacheIsLastChainId | packages/node/src/ethereum/ethers/json-rpc-batch-provider.ts:191-193 | the cache ends as the result of the last chain-id request resolved, and unchanged without one |
| BatchReplies.CacheExactly | packages/node/src/ethereum/ethers/json-rpc-batch-provider.ts:191-193 | after any reply the cache is the result of the last chain-id request that the reply resolves, and unchanged without one |
| BatchProtocol.QueueOverEveryRun | packages/node/src/ethereum/ethers/json-rpc-batch-provider.ts:47-101 | over every interleaving: dispatched batches then the pending one are the requests in send order, ids are consecutive, the timer is set iff a non-empty batch is pending, batches are bounded, the size is windowed |
| BatchProtocol.TimerAndFlushSendEverything | packages/node/src/ethereum/ethers/json-rpc-batch-provider.ts:74-101 | after any run, when the timer fires or the provider is flushed, everything sent so far has been dispatched and nothing waits |
| BatchProtocol.SendExactly | packages/node/src/ethereum/ethers/json-rpc-batch-provider.ts:47-84 | a request that the cache does not answer joins the sent ones under the next id, and is dispatched at once, with all that wait, iff these exceed the batch size |
| BatchProtocol.SentOverEveryRun | packages/node/src/ethereum/ethers/json-rpc-batch-provider.ts:47-70 | the requests sent over a run are exactly those that the cache did not answer, in order, with consecutive ids |
| BatchProtocol.ReplyExactly | packages/node/src/ethereum/ethers/json-rpc-batch-provider.ts:109-215 | a reply settles every request of its batch, sets the cache, and is what the size adjustment learns; a second reply changes nothing |
| BatchProtocol.ConfigureExactly | packages/node/src/ethereum/ethers/json-rpc-batch-provider.ts:43-45 | configuring sets the size, and keeps counters, queue and settlements |
| BatchProtocol.ConfiguredOnceBounds | packages/node/src/ethereum/ethers/json-rpc-batch-provider.ts:43-91 | with configured size b the size stays in 1..max(10, b) and batches have 1 to max(10, b) + 1 requests |
| BatchProtocol.SettlementOverEveryRun | packages/node/src/ethereum/ethers/json-rpc-batch-provider.ts:109-215 | over every interleaving all requests of answered batches are settled as their reply says, and no others |
| BatchProtocol.FirstSettlementStands | packages/node/src/ethereum/ethers/json-rpc-batch-provider.ts:65-68 | a settlement never changes later in the run |
| BatchProtocol.CacheOverEveryRun | packages/node/src/ethereum/ethers/json-rpc-batch-provider.ts:48-50 | a cached chain id was once the settlement of a chain-id request |
| BatchProvider.JsonRpcBatchProvider.Send | packages/node/src/ethereum/ethers/json-rpc-batch-provider.ts:47-84 | answers from the cache or queues under a fresh id; the object takes the step of the protocol |
| BatchProvider.JsonRpcBatchProvider.SettleOne | packages/node/src/ethereum/ethers/json-rpc-batch-provider.ts:166-196 | throws iff the request's payload has an error without message, and otherwise settles the request as its payload says, counting a complaint and caching a chain id |
| BatchProvider.JsonRpcBatchProvider.Flush | packages/node/src/ethereum/ethers/json-rpc-batch-provider.ts:86-91 | takes the flush step |
| BatchProvider.JsonRpcBatchProvider.TimerFires | packages/node/src/ethereum/ethers/json-rpc-batch-provider.ts:74-76 | takes the timer step |
| BatchProvider.JsonRpcBatchProvider.RunRequests | packages/node/src/ethereum/ethers/json-rpc-batch-provider.ts:93-101 | dispatches the pending batch and clears batch and timer |
| BatchProvider.JsonRpcBatchProvider.SetBatchSize | packages/node/src/ethereum/ethers/json-rpc-batch-provider.ts:43-45 | takes the configuration step, keeping the counters |
| BatchProvider.JsonRpcBatchProvider.AdjustBatchSize | packages/node/src/ethereum/ethers/json-rpc-batch-provider.ts:218-236 | updates the three fields as `Adjust`, the function that `AdjustIsWindowed` is about |
| BatchProvider.JsonRpcBatchProvider.IndexResults | packages/node/src/ethereum/ethers/json-rpc-batch-provider.ts:159-162 | the map gives for every id the last payload bearing it; a null payload throws |
| BatchProvider.JsonRpcBatchProvider.HandleReply | packages/node/src/ethereum/ethers/json-rpc-batch-provider.ts:110-214 | for every reply, also one that throws part-way, promises, size fields and cache end as the protocol says |
| BatchProvider.JsonRpcBatchProvider.OnReply | packages/node/src/ethereum/ethers/json-rpc-batch-provider.ts:109-215 | takes the reply step of a batch in flight |
| BatchProvider.JsonRpcBatchProvider.Guarantees | packages/node/src/ethereum/ethers/json-rpc-batch-provider.ts:24-38 | the run-level results hold of the object between any two method calls |
| UnfinalizedBlocks.UnfinalizedBlocksService.HasForked | packages/node/src/indexer/unfinalizedBlocks.service.ts:52-90 | flips the startup flag and computes the verdict for every chain and list, errors included |
| UnfinalizedBlocks.ForkIsReportedExactly | packages/node/src/indexer/unfinalizedBlocks.service.ts:57-89 | at startup the header served in place of the newest stored one is reported; otherwise the newest stored header iff it does not follow its predecessor; only the startup check asks the node, and only it can fail |
| UnfinalizedBlocks.StartupForkIsServed | packages/node/src/indexer/unfinalizedBlocks.service.ts:57-70 | a fork found at startup is a header of the served chain, at the newest stored height |
| UnfinalizedBlocks.UnfinalizedBlocksService.GetLastCorrectFinalizedBlock | packages/node/src/indexer/unfinalizedBlocks.service.ts:96-142 | computes the rewind, with one header fetch for each stored header when nothing matches |
| UnfinalizedBlocks.WalkFindsHighestCommonBlock | packages/node/src/indexer/unfinalizedBlocks.service.ts:103-123 | the walk finds a header iff a stored one is an ancestor, and it is the highest such |
| UnfinalizedBlocks.WalkExactly | packages/node/src/indexer/unfinalizedBlocks.service.ts:107-123 | for any list and chain, the walk finds the header of the first step at which a stored header is the one checked or its parent |
| UnfinalizedBlocks.BelowExactly | packages/node/src/indexer/unfinalizedBlocks.service.ts:103-105 | the walk is over the lower stored headers, all of them and in order |
| UnfinalizedBlocks.FallbackPosition | packages/node/src/indexer/unfinalizedBlocks.service.ts:107-141 | otherwise it ends at the ancestor one block lower for each stored header; the rewind is what POI says of it, fails as POI does, and without POI goes to the fork's height minus the reindex depth, but at least 0 |
| UnfinalizedBlocks.LinkInvariantOverEveryRun | packages/node/src/indexer/unfinalizedBlocks.service.ts:72-89 | over every run without a reported fork all adjacent stored headers but the first pair are hash-linked |
| UnfinalizedBlocks.FirstPairIsNotChecked | packages/node/src/indexer/unfinalizedBlocks.service.ts:72-74 | a run in which the first pair is unlinked and no fork is reported |
| UnfinalizedBlocks.ForkIsAtTheTop | packages/node/src/indexer/unfinalizedBlocks.service.ts:57-105 | a reported fork is at the newest stored height, so the walk starts right below it |
| UnfinalizedBlocks.KeptHeadersAreOnTheForkedChain | packages/node/src/indexer/unfinalizedBlocks.service.ts:107-116 | each stored header from the second to the rewind target is linked to the forked header through known headers, and is the only one of its height that is |
| UnfinalizedBlocks.LinkedHeaderIsUnique | packages/node/src/indexer/unfinalizedBlocks.service.ts:107-116 | at each height at most one header is linked to the forked one |
| UnfinalizedBlocks.RunThenRewind | packages/node/src/indexer/unfinalizedBlocks.service.ts:52-142 | when any run, of checks with or without a new block, ends with a reported fork, the rewind goes to the highest stored header on the forked header's chain and keeps only that chain above the first header, or falls back when no stored header is on it |
| UnfinalizedBlocks.StopHasReason | packages/node/src/indexer/unfinalizedBlocks.service.ts:52-90 | a run stops at a check, and the fork it reports is the one which that check must report |
| UnfinalizedBlocks.StartupCheckIsDoneOnce | packages/node/src/indexer/unfinalizedBlocks.service.ts:57-59 | the startup check is due after every start, and done by the first check after it |
| UnfinalizedBlocks.StartupForkRewindsToServedChain | packages/node/src/indexer/unfinalizedBlocks.service.ts:57-123 | after a fork found at startup the rewind goes to the highest stored ancestor of the header that the node serves at that height |
| UnfinalizedBlocks.StartupSoundness | packages/node/src/indexer/unfinalizedBlocks.service.ts:57-89 | if the first check after a start reports nothing, the stored headers from the second on, and a sole one, are on the served chain |
| UnfinalizedBlocks.NoFalseAlarmOverEveryRun | packages/node/src/indexer/unfinalizedBlocks.service.ts:57-89 | a run in which each stored header is served at its check and follows its predecessor never reports a fork |
| BlockIndexing.BlockBuilder.Fill | packages/node/src/ethereum/api.ethereum.ts:339-377 | fails iff a log is of another block, leaving the object unchanged, and otherwise stores the logs and groups them by transaction |
| LightBlocks.FetchedExactly | packages/node/src/ethereum/api.ethereum.ts:339-388 | a full block is fetched iff every log names its hash, in any letter case, and bears that hash, all logs and all transactions in order; a light block is always fetched |
| LightBlocks.LogsOfTxExactly | packages/node/src/ethereum/api.ethereum.ts:370 | a transaction gets its own logs, all of them and in order |
| BlockIndexing.IndexerManager.IndexBlockData | packages/node/src/indexer/indexer.manager.ts:111-131 | the nested loops make the calls of `BlockCalls` in order |
| BlockIndexing.IndexerManager.IndexTransactions | packages/node/src/indexer/indexer.manager.ts:119-125 | each transaction is offered before its own logs, transactions in block order |
| BlockIndexing.IndexerManager.IndexItem | packages/node/src/indexer/indexer.manager.ts:133-161 | offers one item to all datasources in order |
| CallOrder.ItemCallsExactly | packages/node/src/indexer/indexer.manager.ts:133-161 | an item leads to one call for each handler of its kind that lets it pass, datasources in order and the handlers of each in order |
| CallOrder.CallsFollowSchedule | packages/node/src/indexer/indexer.manager.ts:111-131 | the calls of a block are those of a flat schedule: the full block, then each transaction followed by its logs; or just the logs |
| CallOrder.FullBlockCallsExactly | packages/node/src/indexer/indexer.manager.ts:111-131 | for a full block a handler is called with the block, a transaction or a transaction's log exactly when it is of that kind and lets the item pass |
| CallOrder.BlockHandlersComeFirst | packages/node/src/indexer/indexer.manager.ts:116-118 | block handlers are called before all others |
| CallOrder.TransactionsComeInTurn | packages/node/src/indexer/indexer.manager.ts:119-125 | the calls with a transaction come after those with earlier transactions and their logs, and before those with its own logs |
| CallOrder.LightBlockCallsExactly | packages/node/src/indexer/indexer.manager.ts:126-130 | a light block leads to calls of event handlers with its logs, and to no others |
| BlockIndexing.EventOnlyProjects | packages/node/src/utils/project.ts:54-75 | the manifest and template check holds of a project iff none of its datasources has another handler |
| BlockIndexing.EventOnlyFullBlock | packages/node/src/indexer/indexer.manager.ts:111-131 | in an event-only project a full block leads to the calls for its logs grouped by transaction |
| LightBlocks.LightRefinesFullExactly | packages/node/src/ethereum/api.ethereum.ts:339-388 | the light and the full fetch lead every event-only project to the same sequence of calls iff all logs are of the block and, unless it has no transactions, each log has its transaction and logs follow transaction order |
| LightBlocks.LightKeepsCallsExactly | packages/node/src/ethereum/api.ethereum.ts:339-388 | the calls agree as a multiset iff all logs are of the block and, unless it has no transactions, each log has its transaction |
| LightBlocks.LightLogsLoseTheirTransaction | packages/node/src/ethereum/utils.ethereum.ts:94-102 | a log's `transaction` getter finds nothing in a light block, and in the full block the transaction that lists the log, if there is one |
| AbiSignatures.ArgsCanBeReadBack | packages/common-ethereum/src/codegen/codegen-controller.ts:123-138 | a parser recovers the lower-cased type trees from the printed arguments at any nesting |
| AbiSignatures.SameTextExactly | packages/common-ethereum/src/codegen/codegen-controller.ts:123-138 | two argument lists print alike iff their type trees agree |
| AbiSignatures.FixedTupleArraysClash | packages/common-ethereum/src/codegen/codegen-controller.ts:126-132 | `tuple` and `tuple[2]` print alike |
| AbiNames.PrepareAbiJob | packages/common-ethereum/src/codegen/codegen-controller.ts:171-231 | succeeds iff every asset is valid, with one job for each asset in order, and otherwise fails with the error of the first invalid one |
| AbiNames.RenderItems | packages/common-ethereum/src/codegen/codegen-controller.ts:199-224 | the single pass produces the events and functions of `Render` in ABI order |
| AbiNames.EventsExactly | packages/common-ethereum/src/codegen/codegen-controller.ts:217-223 | a job bears its asset's key and has one event name for each event item, in ABI order: plain iff it occurs once among the events, and otherwise joined with the types |
| AbiNames.FunctionsExactly | packages/common-ethereum/src/codegen/codegen-controller.ts:207-216 | and one pair of names for each function item: both plain iff the name occurs once, otherwise joined with the types and followed by the argument types |
| AbiNames.OfKindExactly | packages/common-ethereum/src/codegen/codegen-controller.ts:199-206 | items are selected by kind, all of them and in ABI order |
| AbiNames.AbiIsReadExactly | packages/common-ethereum/src/codegen/codegen-controller.ts:185-197 | the items of a non-empty array or artifact are read; anything else fails |
| AbiNames.RepeatedMeansTwice | packages/common-ethereum/src/codegen/codegen-controller.ts:203-206 | the duplicate list holds exactly the names that occur at least twice |
| AbiNames.OverloadNamesNeverClash | packages/common-ethereum/src/codegen/codegen-controller.ts:207-216 | function names are distinct iff items differ in name or argument types, one for each function, plain iff the name occurs once |
| AbiNames.PlainTypeNameExactly | packages/common-ethereum/src/codegen/codegen-controller.ts:207-223 | event names and type names are the plain ABI names iff the name occurs once among its kind |
| AbiNames.BracketsAreReplaced | packages/common-ethereum/src/codegen/codegen-controller.ts:119 | the replaced type text contains no `[]`, and differs from the type iff that had one |
| AbiNames.BracketsBecomeArr | packages/common-ethereum/src/codegen/codegen-controller.ts:119 | every pair of brackets becomes `_arr` |
| AbiNames.JoinTypesExactly | packages/common-ethereum/src/codegen/codegen-controller.ts:119 | the joined text is the lower-cased types with underscores between them |

## Left out

- Signature parsing errors: `EventFragment.fromString` and `FunctionFragment.fromString` are total here, so malformed signatures do not throw.
- JSON text of grouping keys: keys are modelled by the value that `JSON.stringify` prints, with property order, not by its characters.
- Letter case outside ASCII: `toLowerCase` is modelled for `A` to `Z`.
- Cache entries inherited from the prototype of the two cache objects.
- Custom datasources and their handler kinds in dictionary queries, the choice of blocks for block handlers with `modulo`, block timestamp filters, and the data each filter receives beyond addresses, topics and input.
- BlockFilters.FilterLogs: models the log address as always present.
- BatchReplies.ResolvedMeansOwnPayload: payload ids are numbers or null; an id given as a string of digits is read as its number.
- BatchProvider.JsonRpcBatchProvider.OnReply: the network call, its retries and debug events are not modelled; a reply or failure is an event.
- UnfinalizedBlocks.UnfinalizedBlocksService.HasForked: the branches with finalization support and the registration of blocks belong to a base class that is not part of this model.
- UnfinalizedBlocks.UnfinalizedBlocksService.GetLastCorrectFinalizedBlock: the chain is fixed during one walk, and the POI lookup is a function of the header reached.
- BlockIndexing.IndexerManager.IndexItem: the filters that the base class applies before a handler call are an arbitrary function, and handlers are recorded, not run.
- LightBlocks.LightRefinesFullExactly: compares calls by the log handed over, without the log's `block` field, which holds the block in the form fetched, and its `transaction` getter, of which `LightLogsLoseTheirTransaction` tells the difference.
- LightBlocks.LightKeepsCallsExactly: the same.
- BlockIndexing.BlockBuilder.Fill: number formatting and the receipt callback of transactions are not modelled; light blocks are fetched without the block-hash check, as in the source.
- AbiNames.JoinInputAbiName: its names are computed but not proved distinct, since overloads with different tuples share one.
- HTTP and WebSocket clients, back-off, module wiring, manifest validation, template rendering, and the Celo and OP formatters.
