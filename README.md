# Ethereum address book, modelled in Dafny

The program scans a fixed range of Ethereum blocks and keeps an address book.
The book holds a block height (`u64`) and a set of 20-byte addresses. Each
step works in three parts. It first raises the height by one. It then asks
the provider for the block with that number. If a block comes back, it adds
the block's beneficiary, plus one address per transaction: the recipient, or
the sender when there is no recipient (a contract creation). At start-up the
program reads the saved book if the file opens. If the file cannot be opened,
it starts a fresh book at height 21395800 with no addresses. It runs the step
while the height is below 21395817.

Files:

- `chain.dfy` (module `Chain`): `u64`, `byte`, `Address` (exactly 20 bytes),
  `Transaction` (sender, optional recipient), `Block` (beneficiary,
  transactions), the provider `Response` (`Ok(Some(block))`, `Ok(None)`,
  `Failed`) and `Provider`, a total function from block number to response.
- `address_book.dfy` (module `Book`): the to-or-from rule `TxAddress`, the
  collected set `TransactionAddresses`, `BlockAddresses`, and `Fetched`
  (what one response adds). It also holds the class `AddressBook`, whose
  fields `blockHeight` and `addresses` are updated in place by
  `IncrementBlockHeight` and `InsertNewBlock`. The insertion loop picks
  addresses from a set in no fixed order, as iterating a hash set does.
- `scanner.dfy` (module `Scanner`): the constants `FreshHeight` and
  `ScanTarget`, and the specification functions `RequestedHeights` and
  `Observed` (the addresses the responses for a range of block numbers add).
  It also holds the `while` loop `Scan` and the start-up plus scan `Run`.
  `Run` takes the saved file's state (`NoFile`, `Unreadable`, `Undecodable`,
  `Stored(height, addresses)`) as an input.

Behaviour worth knowing:

- The height is raised before the fetch. A block number whose response holds
  no block, or whose request fails, is therefore skipped for good. It is not
  retried, and the height still advances.
- Provider errors are not fatal. They take the same branch as "no block".
- A transaction with a recipient contributes only the recipient, never its
  sender. For a block with beneficiary P, a transfer A→B and a contract
  creation by C, the set gains exactly {P, B, C}
  (`Book.ExtractionExample`).
- The book is written to disk only once, after the loop ends.

## Model

| member | source | states |
|---|---|---|
| `Book.TransactionAddressesMembers` | src/main.rs:51-57 | an address is in the collected set exactly when some transaction contributes it: its recipient if it has one, else its sender |
| `Book.BlockAddressesMembers` | src/main.rs:51-60 | a block adds its beneficiary, and otherwise exactly the addresses its transactions contribute |
| `Book.ExtractionExample` | src/main.rs:51-60 | for beneficiary p, transfer a→b and contract creation by c, the block adds exactly {p, b, c}, and the sender a is not added |
| `Book.MergeIdempotent` | src/main.rs:58-60 | inserting the same response's addresses a second time leaves the set unchanged |
| `Book.AddressBook.constructor` | src/main.rs:25-27 | the new book holds exactly the given height and address set |
| `Book.AddressBook.IncrementBlockHeight` | src/main.rs:29-32 | the height rises by exactly one, the new height is returned, and the addresses are untouched |
| `Book.AddressBook.InsertNewBlock` | src/main.rs:47-64 | the height rises by exactly one whatever the provider answers, the number requested is the old height plus one, and the new set is the old set united with what that response adds; when the response is an error or holds no block, the set is left exactly as it was and only the height moves |
| `Scanner.RequestedHeightsAreConsecutive` | src/main.rs:89-92 | a scan from height lo to hi requests hi − lo numbers, lo+1, lo+2, … in order, each once, and none when hi ≤ lo |
| `Scanner.ObservedIsFromFetchedBlocks` | src/main.rs:89-92 | an address is gathered by the scan of a range exactly when the response for some block number in that range adds it |
| `Scanner.ObservedGrows` | src/main.rs:89-92 | what is gathered up to one block number is still there at any later block number: the set never shrinks as the scan advances |
| `Scanner.RerunAfterCompletion` | src/main.rs:79-92 | running the program again on the book saved at 21395817 requests no block and leaves the height at 21395817 and the addresses exactly as saved |
| `Scanner.FreshScanRequests` | src/main.rs:82-92 | a fresh book requests exactly the 17 numbers 21395801, 21395802, …, 21395817, entry i being 21395801 + i, so the last request is 21395817 (the final height is stated by `Scanner.Run`) |
| `Scanner.ResumeScanRequests` | src/main.rs:79-92 | a book saved at 21395810 next requests 21395811, and never 21395810 or below |
| `Scanner.Scan` | src/main.rs:89-92 | from height h below 21395817 the loop ends at exactly 21395817; at or above it the loop does not run and the book is untouched; the set becomes the old set united with all addresses observed from h+1 to the target; the numbers requested are exactly those from h+1 to the target |
| `Scanner.Run` | src/main.rs:77-92 | file cannot be opened: a fresh book at 21395800 with no addresses is scanned to 21395817; a file that cannot be read or decoded ends the run with an error (`InvalidData` for a decode failure) before any request; a decoded book is resumed from its own height |

## Left out

- File persistence: reading the file with `bincode` (src/main.rs:34-45) and writing it back at the end (src/main.rs:66-70, 94). The model does not contain the encoding or a round-trip law. At start-up, the file's state is an input to `Run`.
- The remote provider: the HTTP client, the RPC URL and `get_block_by_number` (src/main.rs:48-50, 85-87). The provider is a total function from block number to response. That is enough because the loop never asks for the same number twice (`Scanner.RequestedHeightsAreConsecutive`).
- The 100 ms sleep between iterations (src/main.rs:91). It has no effect on the book, and the model has no time.
- Loading `.env`, and the panic when `ALCHEMY_URL` is missing (src/main.rs:75, 85). These are configuration read before any scanning.
- Printing: hex rendering of the addresses, the count and the final height (src/main.rs:62, 96-100). This is output only.
- The unused imports of `Arc`, `Mutex` and `ProgressIterator`. The program has no concurrency.
- Book.AddressBook.IncrementBlockHeight: requires the height to be below 2^64 − 1. Raising `u64::MAX` panics in a debug build and wraps in a release build, and neither is modelled. `main` only calls the step while the height is below 21395817, so `Scanner.Scan` and `Scanner.Run` never reach that case.
- Book.AddressBook.InsertNewBlock: carries the same requirement on the height, for the same reason.
