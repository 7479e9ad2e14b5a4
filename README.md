# Vault positions

A Dafny model of `getVaultPositions` from vault-balance-fetcher. The function rebuilds the list
of share holders of a vault contract and their balances at a target block. It works in three steps:

1. **Event paginator.** The vault's Transfer logs are fetched from block 0 to the chain head
   in inclusive ranges `[startBlock, min(startBlock + 10000, latestBlock)]`. After each range the
   cursor moves to `endBlock + 1`. The answers are concatenated in range order. A failed range
   query aborts the whole run with its error.
2. **Holder set builder.** The `sender` and `receiver` of every event that has decoded
   `args` go into an insertion-ordered set. After all inserts, the zero address string and `null`
   are deleted.
3. **Balance snapshot and filter.** Each holder, in set order, becomes a record
   `{address, balance}`, using `balanceOf` at the target block. A lookup that throws gives
   balance 0 and does not abort the batch. Only the records with a non-zero balance are returned,
   in order.

The chain gateway is passed in as two functions:
- the log query `(from, to) -> Result<events, error>`;
- the balance query `address -> Option<balance>`, already bound to the target block.

The chain height `latestBlock` is a parameter.

Modules:
- `Wrappers`: Option and Result.
- `Chain`: participants, events, ranges, positions and the gateway types.
- `Paginator`: the scan loop and the range tiling.
- `HolderSet`: the set construction.
- `Balances`: the snapshot and the filter.
- `VaultPositions`: the whole pipeline.

A JavaScript `Set` is modelled as a sequence without duplicates, in insertion order:
- `add` appends an absent element;
- `delete` removes an element and keeps the order of the others (`HolderSet.DeleteKeepsOrder`).

A participant field is an address string, `null` or `undefined`. Only `null` and the exact
zero-address string are deleted, so an `undefined` participant stays in the set.

Notes on the code:
- There is no price-per-share conversion and no lower-casing of addresses. The returned address is
  the event's own value and the balance is the raw share balance.
- Ranges are inclusive and the bound is on `endBlock - startBlock`, so one query spans up to
  10001 blocks.
- Only `null` and the exact zero-address string are deleted, so an `undefined` participant stays.

## Model

| member | source | states |
|---|---|---|
| Paginator.ScanEvents | getVaultPositions.js:53-64 | the loop terminates (the cursor strictly increases up to `latestBlock + 1`) and its result is the fail-fast concatenation of the query answers over `Ranges(0, latestBlock, 10000)` |
| Paginator.RangesTile | getVaultPositions.js:55-63 | the ranges are non-empty exactly when the start is at most `latestBlock`; the first starts at the cursor's start and the last ends at `latestBlock`; each later one starts at the previous end + 1; every range has `start <= lo <= hi <= latest` and `hi - lo <= chunk` (so it spans at most chunk + 1 blocks) |
| Paginator.RangesDisjoint | getVaultPositions.js:57-63 | an earlier range ends strictly before a later one starts: no overlap |
| Paginator.BlockCoveredOnce | getVaultPositions.js:55-63 | every block of `[start, latestBlock]` lies in some range, and in only one |
| Paginator.CollectSucceedsIff | getVaultPositions.js:61-62 | the scan succeeds if and only if every range query succeeds |
| Paginator.CollectFirstError | getVaultPositions.js:61 | when a range query fails, the scan's result is that range's error, for the first failing range |
| Paginator.CollectConcatenates | getVaultPositions.js:61-62 | when every query succeeds, `allEvents` is the answers concatenated in increasing range order |
| Paginator.ScanIsChunkIndependent | getVaultPositions.js:53-64 | if the gateway answers every range from one block-sorted log, the scan returns exactly the events of blocks `[start, latestBlock]`, each once and in log order, for any chunk size |
| Paginator.ReChunkingAgrees | getVaultPositions.js:53-58 | under the same assumption, two chunk sizes give the same events |
| HolderSet.Add | getVaultPositions.js:72-73 | `Set.add`: the elements become the old ones plus the new one; the old order is a prefix of the new one; no duplicate is created |
| HolderSet.Delete | getVaultPositions.js:77-78 | `Set.delete`: the elements become the old ones minus the deleted one |
| HolderSet.DeleteKeepsOrder | getVaultPositions.js:77-78 | `Set.delete` keeps the remaining elements in their order: a first-appearance-ordered set stays ordered after a delete |
| HolderSet.BuildHolderSet | getVaultPositions.js:69-78 | the loop of inserts followed by the two deletes yields `Holders(events)`: no duplicates, and a value is present if and only if it is a sender or receiver of an event with args and is neither the zero address nor `null` |
| HolderSet.HoldersMembership | getVaultPositions.js:69-78 | a value is a holder if and only if some event with args names it as sender or receiver and it is neither the zero address nor `null`; deleting after all inserts removes the zero address however many events name it |
| HolderSet.HoldersDistinct | getVaultPositions.js:69 | no holder appears twice |
| HolderSet.HoldersInFirstAppearanceOrder | getVaultPositions.js:69-83 | holders are listed in the order of their first appearance among the inserted senders and receivers, which is the set's iteration order |
| Balances.Snapshot | getVaultPositions.js:83-93 | exactly one record per holder, in holder order; the balance is the value `balanceOf` returned, or 0 when it failed |
| Balances.NonZero | getVaultPositions.js:96 | every kept record has a non-zero balance; a record is kept if and only if it was in the input with a non-zero balance |
| Balances.NonZeroIsSubsequence | getVaultPositions.js:96 | the filter keeps the input order: its result is a subsequence of the input |
| Balances.NonZeroKeepsEveryNonZero | getVaultPositions.js:96 | no non-zero record is dropped: each non-zero record is kept exactly as often as it occurs, and no zero record is kept |
| Balances.NonZeroKeepsDistinctAddresses | getVaultPositions.js:83-96 | records with distinct addresses stay distinct after the filter |
| VaultPositions.GetVaultPositions | getVaultPositions.js:53-106 | the run fails if and only if some range query fails, and then with the error of the first failing range; otherwise it returns the non-zero positions of the holders of the scanned events |
| VaultPositions.PositionsCharacterized | getVaultPositions.js:69-102 | every returned position has a non-zero balance equal to what `balanceOf` reported, for a sender or receiver that is neither the zero address nor `null`; every such holder with a non-zero balance is returned; no address is returned twice |
| VaultPositions.PositionsInFirstAppearanceOrder | getVaultPositions.js:69-102 | returned positions follow the first-appearance order of their holders in the scanned log |

## Left out

- Provider and contract construction, `getCode`, and the hard-coded RPC URL (lines 6-14). These are network plumbing. The `rpcUrl` argument is unused by the source.
- `getBlockNumber` (line 49). The chain height is the parameter `latestBlock`. A failure of this call would also be rethrown; the model does not include it.
- The diagnostic calls `name`, `symbol`, `totalSupply` and `isShutdown` (lines 17-44). Their results are only logged.
- All `console.log` / `console.error` output, and `main` (lines 110-128). These are I/O and example usage.
- The target block tag (`blockNumber`). It is bound into the balance-query parameter, because the source only forwards it to `balanceOf`.
- The concurrency of `Promise.all` (line 93). Its observable effect is an order-preserving map, which `Snapshot` models sequentially.
- ethers `BigNumber`. Balances are `nat`; `isZero` is `== 0`.
- Paginator.ScanEvents: the gateway is a pure function, so the model does not record that no range after a failed one is queried. It states only that the result is the first failure's error.
- The balance query is any function on participants, so the model admits a `Some` answer for `undefined`. In the program ethers rejects `balanceOf(undefined, …)` (line 85); the catch turns that into 0 and the filter drops the record. The model does not capture that rejection.
- Price-per-share conversion and address lower-casing. They do not exist in this code.
