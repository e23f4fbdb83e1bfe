# Standalone storage and raw API of tinykv, modelled in Dafny

This project models the single-node back end of tinykv and the four raw
request handlers that run on it.

- **Engine state.** The embedded Badger engine is replaced by the content
  it stores: a map from (column family, key) to value. Within one column
  family, keys are byte strings in Go's `bytes.Compare` order: lexicographic
  by byte, with a proper prefix first.
- **`StandAloneStorage`** is a class with one field, `db`.
  - `Write` walks the batch in list order. Each `Put` sets a key and each
    `Delete` removes one.
  - `GetCF` is a point lookup. An absent key reads as `nil`.
  - `Reader` returns the storage itself.
  - `IterCF` opens a cursor over the family's keys, in ascending order, taken
    from the state at the moment the cursor is opened.
- **Handlers.**
  - `RawGet` sets `NotFound` exactly when the value read is `nil`.
  - `RawPut` and `RawDelete` each write a one-element batch.
  - `RawScan` seeks to `StartKey`, then copies pairs until it has `Limit` of
    them or the cursor runs out.
  - The scan loop is the method `CopyPairs`. `RawScan` opens the cursor,
    seeks, and runs that loop.

Engine failures that the code can meet are oracle parameters:

- `faults` of `Write`: the set of batch positions whose `PutCF`/`DeleteCF`
  fails.
- `fault` of `GetCF`: an engine error other than "key not found".
- `copyFaults` of `RawScan`: the set of iterations whose `ValueCopy` fails.

The model follows the code where the code departs from the storage
interface's documented contract:

- `Write` ignores the results of `PutCF`/`DeleteCF` and always reports
  success. A failed engine write leaves its key unchanged, and `RawPut` and
  `RawDelete` still answer with success.
- `GetCF` drops every engine error, not only "key not found". With an engine
  fault it returns `nil`, so `RawGet` reports `NotFound`.

Files:

- `outcomes.dfy`: `Option`, `Error` and `Result`.
- `bytes.dfy`: the key order, and sorting a key set.
- `storage.dfy`: `Modify`, the batch semantics and its lemmas, and the
  sorted keys of a family and the seek position.
- `standalone.dfy`: the classes `StandAloneStorage` and `CFIterator`.
- `raw_api.dfy`: the request and response records, the scan specification
  and its lemmas, and the class `Server`.

## Model

| member | source | states |
|---|---|---|
| Storage.Apply | kv/storage/standalone_storage/standalone_storage.go:38-41 | one engine write makes a lookup of its target see the written value (`Put`) or absence (`Delete`), and every other (family, key) reads as before |
| Storage.BatchIsLeftFold | kv/storage/standalone_storage/standalone_storage.go:35-43 | with no engine failure, the state after a batch is the left fold of the single writes over the initial state, in list order |
| Storage.LastWins | kv/storage/standalone_storage/standalone_storage.go:35-43 | the last applied intent of the batch that names a key decides what a lookup of that key sees, so a later write of the same key overrides an earlier one |
| Storage.Untouched | kv/storage/standalone_storage/standalone_storage.go:35-43 | a (family, key) that no applied intent names keeps its value or its absence |
| Storage.ColumnFamilyIsolation | kv/storage/standalone_storage/standalone_storage.go:35-43 | a batch that writes only other families leaves every key of a family as it was, including byte-identical keys in other families |
| Storage.AllFailed | kv/storage/standalone_storage/standalone_storage.go:35-44 | a batch whose every engine write fails, including the empty batch, leaves the state unchanged |
| Storage.PutThenGet | kv/storage/standalone_storage/standalone_storage.go:38-39 | after writing `[Put(cf, k, v)]`, a lookup of (cf, k) returns v |
| Storage.DeleteErases | kv/storage/standalone_storage/standalone_storage.go:40-41 | after writing `[Delete(cf, k)]`, the key is absent |
| Storage.PutThenDelete | kv/storage/standalone_storage/standalone_storage.go:38-41 | a put followed by a delete of the same key, in two writes, leaves it absent |
| Storage.CfKeys | kv/storage/standalone_storage/standalone_storage.go:59-62 | the keys of a family are exactly the k with (cf, k) stored |
| Storage.SortedKeys | kv/storage/standalone_storage/standalone_storage.go:59-62 | the cursor's key sequence is strictly ascending and holds exactly the family's stored keys |
| Storage.SortedKeysUnique | kv/storage/standalone_storage/standalone_storage.go:59-62 | any strictly ascending sequence of exactly the family's keys is the cursor's sequence, so the walk order is determined |
| Bytes.SortSet | kv/storage/standalone_storage/standalone_storage.go:59-62 | sorting a key set gives a strictly ascending sequence with the same members and the same size |
| Bytes.AscendingUnique | kv/storage/standalone_storage/standalone_storage.go:59-62 | two strictly ascending sequences with the same members are equal |
| Storage.SeekIndex | kv/server/raw_api.go:72 | `Seek(start)` stops at the first key at or above `start`: every key before it is below `start` |
| Storage.SeekSplits | kv/server/raw_api.go:72 | on the ascending key sequence, every key from the seek position on is at or above `start` |
| Standalone.EngineGet | kv/storage/standalone_storage/standalone_storage.go:50-56 | the engine lookup reports no error exactly when there is no fault and the key is stored, and then yields the stored value; it reports "key not found" exactly when there is no fault and the key is absent; with any error it yields no value |
| Standalone.StandAloneStorage.Reader | kv/storage/standalone_storage/standalone_storage.go:30-32 | the reader is the storage itself, over the same live state, and no error is returned |
| Standalone.StandAloneStorage.PutCF | kv/storage/standalone_storage/standalone_storage.go:39 | the key is set to the value unless the engine write fails; a failure changes nothing and is reported |
| Standalone.StandAloneStorage.DeleteCF | kv/storage/standalone_storage/standalone_storage.go:41 | the key is removed unless the engine write fails; a failure changes nothing and is reported |
| Standalone.StandAloneStorage.Write | kv/storage/standalone_storage/standalone_storage.go:34-45 | the result is always success, and the new state is the batch applied in list order with the failed engine writes skipped |
| Standalone.StandAloneStorage.GetCF | kv/storage/standalone_storage/standalone_storage.go:48-57 | no error is ever returned; without an engine fault the value is the stored one or `nil` when absent, and with a fault it is `nil` |
| Standalone.StandAloneStorage.IterCF | kv/storage/standalone_storage/standalone_storage.go:59-62 | a fresh cursor over the requested family of the current state, walking its keys in ascending order |
| Standalone.CFIterator.Valid | kv/server/raw_api.go:72 | while the cursor is valid it stands on a key stored in its family; once it is not, it has walked past every key |
| Standalone.CFIterator.Seek | kv/server/raw_api.go:72 | the cursor moves to the first key at or above the start key |
| Standalone.CFIterator.Next | kv/server/raw_api.go:72 | the cursor advances by one key |
| Standalone.CFIterator.KeyCopy | kv/server/raw_api.go:75 | the key under the cursor is stored in the family |
| Standalone.CFIterator.ValueCopy | kv/server/raw_api.go:76-79 | the copy fails exactly under a copy fault; otherwise it is the value stored under the current key |
| RawApi.CopyPairs | kv/server/raw_api.go:72-83 | the loop copies the window of `limit` keys from the seek position, each with its stored value, unless a copy fails inside the window, which aborts with no pairs |
| RawApi.ScanBounded | kv/server/raw_api.go:72 | a scan returns at most `Limit` pairs, none when `Limit` is 0 |
| RawApi.ScanKeysFromStart | kv/server/raw_api.go:72 | every scanned key is at or above `StartKey` |
| RawApi.ScanKeysAscending | kv/server/raw_api.go:68-81 | the scanned keys are strictly ascending |
| RawApi.ScanKeysConsecutive | kv/server/raw_api.go:72 | no key at or above `StartKey` is skipped: any such key up to the last returned one is returned, and all of them are returned when fewer than `Limit` were |
| RawApi.ScanPairsStored | kv/server/raw_api.go:73-81 | pair j of a scan holds the j-th scanned key and the value stored under it |
| RawApi.ExampleOrder | kv/storage/standalone_storage/standalone_storage.go:59-62 | keys "a" to "d" of one family are walked in the order a, b, c, d |
| RawApi.ExampleWindow | kv/server/raw_api.go:72 | over keys "a" to "d", a scan from "b" with limit 2 visits exactly "b" and "c" |
| RawApi.ScanExample | kv/server/raw_api.go:63-86 | with keys "a" to "d" stored, a scan from "b" with limit 2 returns exactly the pairs for "b" and "c" |
| RawApi.Server.RawGet | kv/server/raw_api.go:14-29 | the response is always success; `NotFound` holds exactly when the key is absent or the engine faulted; the value is then `nil`, and otherwise it is the stored value |
| RawApi.Server.RawPut | kv/server/raw_api.go:32-45 | exactly one write of the single `Put` from the request; success is reported; without an engine fault the key then reads as the value; every other (family, key) is unchanged |
| RawApi.Server.RawDelete | kv/server/raw_api.go:48-60 | exactly one write of the single `Delete` from the request; success is reported; without an engine fault the key is then absent; every other (family, key) is unchanged |
| RawApi.Server.RawScan | kv/server/raw_api.go:63-86 | the result equals the scan specification `ScanSpec` on the current state: it is the copy error exactly when a value copy fails on an iteration inside the window `ScanKeys` (the family's sorted keys from the first key at or above `StartKey`, `Limit` long or all that are left); otherwise it is `ScanPairs`, those keys with their stored values |

## Left out

- `NewStandAloneStorage`, `Start`, `Stop` and `Close` (standalone_storage.go:17-28, 64-66) are process setup or no-op lifecycle hooks. `it.Close()` (raw_api.go:69) closes the cursor. The read-only transaction opened at standalone_storage.go:60 is never discarded by this code. Neither release is modelled; neither changes the stored content.
- The Badger engine and `engine_util` are not part of this model. This covers `PutCF`, `DeleteCF`, `GetCF`, `NewCFIterator`, the family-prefix key encoding and transactions. Their effect is the abstract map, the sorted key sequence of a family, and a seek position. Because the model keys the map by the pair (family, key), `Storage.ColumnFamilyIsolation` holds for the abstract map by construction. In the engine it holds only while the family-prefix encoding is injective: with a prefix of `cf + "_"`, family `a` with key `b_x` and family `a_b` with key `x` share one engine key. That collision is not modelled.
- Standalone.StandAloneStorage.GetCF: with an engine fault the value is taken to be `nil`, because the value `engine_util.GetCF` returns alongside such an error is not visible here.
- Engine handling of empty values is not modelled: the model keeps a stored empty value distinct from an absent key. The engine's value copy may turn an empty value into `nil`, which `RawGet` would report as `NotFound`.
- Concurrency and snapshots are left out. The cursor sees the state at `IterCF` time (`view`), which is a snapshot. Concurrent writers and readers are not modelled.
- Buffer aliasing of `KeyCopy`/`ValueCopy` is left out: Dafny sequences are values. `ValueCopy` is modelled only as a copy that may fail, and `KeyCopy` cannot fail.
- Request contexts (`context.Context`, `kvrpcpb.Context`) and protobuf framing are left out. They are passed through unchanged.
- The ignored unknown `Modify` variant (standalone_storage.go:36-42) cannot occur: `Modify` is a closed datatype with exactly `Put` and `Delete`.
- The handlers' error returns after `Reader`, `GetCF` and `Write` (raw_api.go:16-18, 20-22, 40-42, 55-57, 65-67) are present in the methods but never reached, because this backend never returns an error from these calls. No contract states them.
- The cursor's position before `Seek` is fixed at the first key. `RawScan` always seeks first.
- `Limit` is a `uint32`, modelled as an integer in `[0, 2^32)`. The model assumes a 64-bit Go `int`, on which `int(req.Limit)` is exact. On a 32-bit target a `Limit` of 2^31 or more would become negative and the scan would copy nothing. That case is not modelled.
