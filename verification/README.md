# yjs transaction storage: a Dafny model

This project models `YTransactionStorageImpl`, which persists a yjs (CRDT) document behind a transactional key-value store. The store holds three things:

- an optional snapshot under `state/doc`;
- a log of pending deltas under `update/1`, `update/2`, …;
- two counters, `state/bytes` and `state/count`. Both read as 0 when absent.

The class has three operations:

- `getYDoc` rebuilds the document from the snapshot and every pending delta.
- `storeUpdate` appends a delta while the log stays within `maxBytes` and `maxUpdates`. When the log would exceed either one, it folds everything, the new delta included, into a new snapshot.
- `commit` folds the whole log into the snapshot and resets both counters.

The model is split into modules:

- `YDocModel` (`ydoc.dfy`) is the CRDT engine, kept abstract. A document is the set of deltas merged into it, and `applyUpdate` is set insertion, so merging commutes and is idempotent. `YDoc` is the mutable document object.
- `KeyValue` (`key_value.dfy`) holds the key scheme `State(name) | Update(n)` and the stored values. A value is `Num`, `Record(delta)` or `Snapshot(state)`. `Snapshot(s)` is the encoding of a document with content `s`, so encoding and decoding are a bijection. `Storage` is the key-value adapter: a class over a `map`.
- `Compaction` (`compaction.dfy`) states the policy as functions of the stored map. They give the assembled document, the store after `storeUpdate` and after `commit`, and the counter invariant `Consistent`. The lemmas about them live here too.
- `TransactionStorage` (`transaction_storage.dfy`) is the class itself. Each method works step by step through `get`, `list`, `put` and `delete` on the storage. Each is proved to leave exactly the state the `Compaction` functions describe.
- `Scenarios` (`scenarios.dfy`) holds concrete runs of the policy and the commit race described under Findings.

## Model

| member | source | states |
|---|---|---|
| YDocModel.ApplyAllIsUnion | src/yjs/storage/index.ts:49-59 | merging a list of deltas into a document adds exactly the deltas of the list |
| YDocModel.ApplyAllOrderIndependent | src/yjs/storage/index.ts:56-58 | merging the same deltas in any permutation gives the same document |
| YDocModel.ApplyAllIdempotent | src/yjs/storage/index.ts:100-102 | merging deltas a second time changes nothing, so the commit's re-scan cannot double-count |
| YDocModel.YDoc.constructor | src/yjs/storage/index.ts:50 | `new Doc()` is empty |
| YDocModel.YDoc.ApplyUpdate | src/yjs/storage/index.ts:57 | `applyUpdate` of a delta adds that delta to the document in place |
| YDocModel.YDoc.ApplySnapshot | src/yjs/storage/index.ts:53-55 | applying the encoded snapshot adds every delta it encodes |
| KeyValue.OfKind | src/yjs/storage/index.ts:37-39 | a prefix scan returns exactly the entries of that kind, with their values |
| KeyValue.Storage.Get | src/yjs/storage/index.ts:69-74 | `get` returns the stored value, or nothing for an absent key |
| KeyValue.Storage.List | src/yjs/storage/index.ts:94-96 | `list` returns every entry of the kind and nothing else |
| KeyValue.Storage.Put | src/yjs/storage/index.ts:85-87 | `put` sets one key and leaves every other key alone |
| KeyValue.Storage.Delete | src/yjs/storage/index.ts:98 | `delete` removes exactly the given keys |
| Compaction.ResolveLimits | src/yjs/storage/index.ts:27-29 | an omitted `maxBytes` is 1024*1024 and an omitted `maxUpdates` is 500; given values are kept |
| Compaction.StoreUpdateAppends | src/yjs/storage/index.ts:69-87 | within both limits, including exactly at them: `state/bytes` grows by the delta's length and `state/count` by one, with absent counters read as 0; `update/<count+1>` holds the delta; no other key changes |
| Compaction.StoreUpdateCompacts | src/yjs/storage/index.ts:79-83 | only exceeding a limit compacts: no records remain, both counters are 0, and the snapshot is the assembled document plus the new delta |
| Compaction.CompactedClearsLog | src/yjs/storage/index.ts:92-108 | after any internal commit no `update/*` key remains, both counters are 0, and the snapshot holds the document plus every delta scanned in the transaction |
| Compaction.CompactedIsConsistent | src/yjs/storage/index.ts:98-108 | any internal commit leaves the counters consistent with the (empty) log and within any non-negative limits |
| Compaction.CountersDescribeLog | src/yjs/storage/index.ts:76-87 | in a consistent store the pending keys are exactly `update/1..count`, `state/count` is their number and `state/bytes` the sum of their byte lengths |
| Compaction.StoreUpdatePreservesConsistency | src/yjs/storage/index.ts:76-88 | `storeUpdate` keeps the counters consistent with the log, by either branch |
| Compaction.CommitEstablishesConsistency | src/yjs/storage/index.ts:98-107 | after `commit` the store is consistent and both counters are 0 |
| Compaction.StoreUpdateStaysWithinLimits | src/yjs/storage/index.ts:79-88 | if the counters start within the thresholds, they are within them after `storeUpdate` |
| Compaction.StoreUpdateFoldsDelta | src/yjs/storage/index.ts:80-87 | after `storeUpdate(u)`, by either branch, the assembled document is the previous one with `u` merged |
| Compaction.CommitPreservesDocument | src/yjs/storage/index.ts:114-119 | `commit` keeps the assembled document, empties the log and zeroes both counters |
| Compaction.CommitIdempotent | src/yjs/storage/index.ts:114-119 | a second `commit` with no `storeUpdate` in between leaves the store exactly as the first left it |
| Compaction.StoreAllFolds | src/yjs/storage/index.ts:67-90 | after any sequence of `storeUpdate` calls the store is consistent and stays within the thresholds, and the assembled document is the start document with every delta merged |
| Compaction.StoreAllAnyOrder | src/yjs/storage/index.ts:49-59 | the document assembled after storing a batch of deltas does not depend on the order they were stored in |
| TransactionStorage.YTransactionStorageImpl.constructor | src/yjs/storage/index.ts:23-30 | the thresholds are the options' values or the defaults |
| TransactionStorage.YTransactionStorageImpl.GetYDoc | src/yjs/storage/index.ts:32-65 | returns a fresh document holding the snapshot's deltas and every pending delta, merged in scan order |
| TransactionStorage.YTransactionStorageImpl.StoreUpdate | src/yjs/storage/index.ts:67-90 | leaves the store the threshold test selects (append or compaction); keeps consistency and the thresholds; the assembled document gains the delta |
| TransactionStorage.YTransactionStorageImpl.InternalCommit | src/yjs/storage/index.ts:92-112 | deletes every pending record, merges each into the document, stores its encoding as the snapshot and resets both counters |
| TransactionStorage.YTransactionStorageImpl.Commit | src/yjs/storage/index.ts:114-120 | empties the log, zeroes the counters, keeps the assembled document and leaves the store consistent |
| Scenarios.ThirdSmallDeltaCompacts | src/yjs/storage/index.ts:79-83 | with limits 10 bytes and 100 updates, the third 4-byte delta compacts: the snapshot holds all three deltas, the counters are 0 and no records remain |
| Scenarios.DefaultsAppendFiveKiB | src/yjs/storage/index.ts:27-29 | under the default limits a 5120-byte delta after a compaction becomes `update/1`, with counters 5120 and 1 and the snapshot untouched |
| Scenarios.StaleCommitLosesDelta | src/yjs/storage/index.ts:114-119 | a compaction between `commit`'s assembly and its transaction loses the compacted delta |
| Scenarios.StaleCommitKeepsAppends | src/yjs/storage/index.ts:94-102 | if only appends happen in between, the re-scan inside the transaction keeps every delta |

## Findings

| source | as written | input that shows it | evidently intended | confidence | as-written member | corrected member |
|---|---|---|---|---|---|---|
| src/yjs/storage/index.ts:114-119 | `commit` assembles the document before opening its transaction. Inside the transaction it re-scans only the pending records, then overwrites the snapshot. | Empty storage with limits 10 bytes and 100 updates. `commit` assembles the empty document. Then `storeUpdate` of an 11-byte delta compacts it into the snapshot. Then `commit`'s transaction writes the empty document over that snapshot, and the delta is gone. | The document is assembled inside the same atomic step as the compaction, so the new snapshot denotes everything stored. | low: it depends on whether the storage adapter lets the two calls interleave; not executed | Scenarios.StaleCommitLosesDelta | Compaction.CommitPreservesDocument |

`Scenarios.InterleavedCommit` models the commit as written: `Compacted(during, Assembled(before))`. The rest of the model runs each public call as one atomic step; that is the corrected behaviour, and `CommitPreservesDocument` is proved for it. The same pattern appears in `storeUpdate`'s compaction branch. There `getYDoc` reads through the storage rather than through the open transaction (`src/yjs/storage/index.ts:80`).

## Left out

- The yjs engine is left out: its `Doc`, `doc.transact`, update encoding and merge semantics. A document is a set of opaque deltas. Merging is insertion, and encoding is the `Snapshot` value constructor.
- The storage engine's durability, isolation and the textual key encoding of `storageKey` are left out. A store is a `map<Key, Value>`, and each transaction is one method.
- `./storage-key` and `./type` are not part of this model.
- Failures are left out: of storage operations, of `applyUpdate` and of the encoder. So are the `Error` wrappers with a `cause`. With a failure, a transaction would abort and leave the store unchanged. No operation here can fail.
- Asynchrony and concurrency are modelled sequentially. Every read, including `getYDoc` inside `storeUpdate`, sees the state its call started from. Findings states the one interleaving the model examines.
- The `console.log` diagnostics are I/O.
- JavaScript numbers are modelled as unbounded integers. Non-integer or non-finite thresholds and counters, and floating-point rounding of large sums, are not captured.
- Every method requires `WellTyped`. This is the typing the source's `get<number>`, `get<Uint8Array>` and `list<Uint8Array>` calls take for granted: counters hold numbers, the snapshot holds an encoded document and records hold deltas. Storage holding other kinds of values under these keys is not modelled.
- An update passed to `storeUpdate` is taken to be a single delta. An update that is itself an encoded full state (the output of `encodeStateAsUpdate`) is not distinguished from a delta.
