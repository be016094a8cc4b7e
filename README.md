# simplebank ledger — a Dafny model

This project models the ledger store of simplebank, a small Go bank backend. The store keeps four
tables:

- `accounts`: owner, balance and currency;
- `entries`: one signed balance change of one account;
- `transfers`: a movement of money between two accounts;
- `users`: keyed by username.

The accounts, entries and transfers tables have single-row queries: create, get, list, update and
delete. The users table has only create and get. `TransferTx` is built on
those queries: in one database transaction it inserts the transfer row, inserts a debit entry on the
source and a credit entry on the destination, and adds `-amount` and `+amount` to the two balances.
The model also covers two utility files: the supported-currency check and the test-data generators.

Each query is given the semantics that the repository's tests (db/sqlc/*_test.go) require of it, row
by row. The generated SQL behind the queries, and the database schema, are not part of this model.

Modules:

- `Rows` (rows.dfy): the row records, the errors a query reports (`ErrNoRows`,
  `ForeignKeyViolation`, `UniqueViolation`), and the `LIMIT`/`OFFSET` paging of the list queries.
- `Currency` (currency.dfy): the `USD`/`EUR`/`RUB` constants and `IsSupportedCurrency`.
- `Random` (random.dfy): the generators. The random source is replaced by the values it returns: a
  generator takes as parameters the draws `d` it consumes, each with `0 <= d < k` for
  `rand.Intn(k)` / `rand.Int63n(k)`.
- `Ledger` (ledger.dfy): pure functions for what transfers do to the accounts table.
  - `Step` is one `TransferTx`; `Replay` is a serialised batch.
  - The lemmas prove commutation, conservation of money, the k-th-transfer arithmetic of the
    concurrent test, that the accounts table after a batch does not depend on the order in which
    its transfers commit, and that alternating transfers net to zero in any commit order.
- `Db` (store.dfy): class `Store`, with the four tables as `map` fields. Accounts, entries and
  transfers each have an id counter; users are keyed by username and have none.
  - Queries that change a table are methods with `modifies` frames. Reads are functions.
  - `TransferTx` is proved to leave the accounts table as `Ledger.Step` says.
  - `RunSerialised`, `SameDirectionBatch` and `AlternatingBatch` run batches of `TransferTx`
    calls in the order the database serialises them. `RunSerialised` and `AlternatingBatch` take
    that commit order as a parameter. In `SameDirectionBatch` every request is the same, so every
    order gives the same sequence.

Concurrency is modelled only by its outcome. The concurrent `TransferTx` calls of the tests commit
one after another in some order; a batch is a sequence of requests in that order. Row ids come from
counters that start at 1 and never repeat. Timestamps come from an explicit clock value `now > 0`,
and `0` stands for Go's zero `time.Time`.

Modelling decisions:

- **Amounts and self-transfers.** `TransferTx` checks neither the sign of the amount nor that the
  two accounts differ. No test exercises such a check, and db/sqlc/transfer_test.go:20-25 books a
  `RandomMoney` amount, which may be 0 (util/random.go:40-42), without error.
- **Missing account.** A missing account fails the foreign key of the transfer insert, the first
  step of `TransferTx`, so the error is `ForeignKeyViolation` and the rolled-back transaction leaves
  every table unchanged.
- **Entries are mutable.** The tests update entries (db/sqlc/entry_test.go:73-90), so `UpdateEntry`
  is modelled.
- **No balance or currency checks.** Balances may go negative, and currencies are not compared
  (db/sqlc/store_test.go:15-16, 131).

## Model

| member | source | states |
|---|---|---|
| Db.Store.constructor | db/sqlc/store_test.go:13 | a freshly migrated, empty database: four empty tables satisfying the table invariant (ids below their counters, foreign keys hold). A `NewStore` over a populated database corresponds to any state satisfying that invariant, which is all that every query requires |
| Db.Store.CreateAccount | db/sqlc/account_test.go:13-33 | the new row echoes owner, balance and currency, has a fresh non-zero id and a non-zero creation time, is the only row added, and GetAccount returns it |
| Db.Store.GetAccount | db/sqlc/account_test.go:39-52 | succeeds exactly when the id is stored and returns that stored row with that id; otherwise fails with ErrNoRows |
| Db.Store.GetAccountForUpdate | db/sqlc/account_test.go:54-67 | returns the same result as GetAccount, so exactly the stored row |
| Db.Store.ListAccounts | db/sqlc/account_test.go:69-87 | returns PageSize(rows, limit, offset) rows, so exactly `limit` rows when offset + limit rows exist; every row is a stored row with a non-zero id, and no row appears twice |
| Db.Store.UpdateAccount | db/sqlc/account_test.go:89-107 | on a stored id, sets the balance to the given value and keeps id, owner, currency and creation time; on a missing id, fails with ErrNoRows and changes nothing |
| Db.Store.AddAccountBalance | db/sqlc/account_test.go:109-127 | on a stored id, the balance becomes old balance + amount and the other fields are kept (via Ledger.AddBalance); the total of all balances moves by the amount; a missing id gives ErrNoRows and no change |
| Db.Store.DeleteAccount | db/sqlc/account_test.go:129-140 | removes the row, after which GetAccount gives ErrNoRows; fails with ForeignKeyViolation, changing nothing, exactly when an entry or transfer still names the account |
| Db.Store.CreateEntry | db/sqlc/entry_test.go:13-33 | the new entry echoes account id and amount, has a fresh non-zero id and a non-zero creation time, and GetEntry returns it; an unknown account gives ForeignKeyViolation and no change |
| Db.Store.GetEntry | db/sqlc/entry_test.go:39-51 | succeeds exactly when the id is stored and returns that row, whose account exists; otherwise ErrNoRows |
| Db.Store.ListEntries | db/sqlc/entry_test.go:53-71 | returns PageSize rows, so exactly `limit` when enough rows exist; all are stored rows with non-zero ids, none repeated |
| Db.Store.UpdateEntry | db/sqlc/entry_test.go:73-90 | changes only the amount, keeping id, account id and creation time; a missing id gives ErrNoRows and no change |
| Db.Store.DeleteEntry | db/sqlc/entry_test.go:92-103 | removes the row, after which GetEntry fails with ErrNoRows |
| Db.Store.CreateTransfer | db/sqlc/transfer_test.go:13-36 | the new row echoes from-id, to-id and amount, has a fresh non-zero id and a non-zero creation time, and GetTransfer returns it; succeeds exactly when both accounts exist, otherwise ForeignKeyViolation and no change |
| Db.Store.GetTransfer | db/sqlc/transfer_test.go:42-55 | succeeds exactly when the id is stored and returns that row; otherwise ErrNoRows |
| Db.Store.ListTransfers | db/sqlc/transfer_test.go:57-75 | returns PageSize rows, so exactly `limit` when enough rows exist; all are stored rows with non-zero ids, none repeated |
| Db.Store.UpdateTransfer | db/sqlc/transfer_test.go:77-95 | changes only the amount, keeping from-id and to-id; a missing id gives ErrNoRows and no change |
| Db.Store.DeleteTransfer | db/sqlc/transfer_test.go:97-108 | removes the row, after which GetTransfer fails with ErrNoRows |
| Db.Store.CreateUser | db/sqlc/user_test.go:12-38 | echoes username, hashed password, full name and email; the password-changed time is the zero time and the creation time is not; GetUser returns the row; a taken username gives UniqueViolation and no change |
| Db.Store.GetUser | db/sqlc/user_test.go:44-58 | succeeds exactly when the username is stored and returns that row in every field; otherwise ErrNoRows |
| Db.Store.TransferTx | db/sqlc/store_test.go:50-107 | succeeds exactly when both accounts exist. The accounts table becomes Ledger.Step of the old one, and the total balance is unchanged. On success: exactly one new transfer row and two new entries (-amount on the source, +amount on the destination), each retrievable; the returned account rows are the updated stored rows. On failure nothing is added; the transfer row and both entries are created at the clock value `now`, which is non-zero |
| Db.Store.MoveBalances | db/sqlc/store_test.go:86-111 | the two AddAccountBalance updates of a booked transfer leave the accounts table equal to Ledger.Step and keep the total balance; the returned source row is the old row less the amount, the destination row the old row plus the amount (unchanged for a self-transfer), and between distinct accounts both are the stored rows afterwards |
| Db.Store.RunSerialised | db/sqlc/store_test.go:25-84 | running a batch in serialisation order leaves the accounts table equal to Ledger.Replay of the batch and keeps the total balance; each result succeeds exactly when its accounts exist and is the result of one transfer on the table its predecessors left. Every old transfer and entry row is kept. Each successful result inserted one transfer and two entries, new to the old tables, stamped `now`, shared with no other result and retrievable with GetTransfer and GetEntry; no other id is added, so the tables grow by one transfer and two entries per success |
| Db.Store.RunNext | db/sqlc/store_test.go:29-37 | one more TransferTx call of a serialised batch extends the batch's results by one and keeps the batch description (accounts replayed, total kept, results booked, rows inserted) |
| Db.Store.SerialisedNext | db/sqlc/store_test.go:43-84 | the result of running the next request on the state the batch so far left behind extends that description by one request |
| Db.Store.SerialisedAll | db/sqlc/store_test.go:43-84 | once every request has run, the accounts are the replay of the whole batch and every successful result's rows are retrievable |
| Db.Store.SameDirectionBatch | db/sqlc/store_test.go:25-132 | n transfers between two distinct accounts all succeed and are the booked results of the batch; the accounts table is Ledger.Replay of the batch, so the two accounts keep id, owner, currency and creation time. Each result echoes from-id, to-id and amount in its transfer row, has entries of −amount on the source and +amount on the destination, and returns account rows that keep id, owner, currency and creation time. The i-th leaves the source (i+1)·amount lower and the destination (i+1)·amount higher; for a positive amount each k = diff/amount is in 1..n and occurs once. At the end the source holds start − n·amount and the destination start + n·amount, with no lower bound, and other accounts are untouched. The batch adds exactly n new, distinct transfer rows and 2n new, distinct entry rows, all retrievable |
| Db.Store.AlternatingBatch | db/sqlc/store_test.go:141-180 | n transfers alternating in direction between two accounts, committed in any order `reqs` of them, are the booked results of that order, each succeeding exactly when both accounts exist; with n even the accounts table ends exactly as it was, whatever the order; the rows of every successful result are new, distinct and retrievable, and the tables grow by n transfers and 2n entries when both accounts exist, otherwise not at all |
| Db.BatchInsertedAppend | db/sqlc/store_test.go:50-84 | a TransferTx call that either inserted its three fresh rows, stamped `now`, or changed nothing keeps every old row, keeps the earlier results' rows stored, fresh and distinct, and makes the new ids exactly those of the results so far, one transfer and two entries per success |
| Db.KeysAppend | db/sqlc/store_test.go:57-84 | one more call keeps every old row and adds exactly its own transfer and entry ids |
| Db.CountsAppend | db/sqlc/store_test.go:57-84 | one more successful call adds exactly one transfer row and two entry rows; a failed one adds none |
| Db.AllRecordedAppend | db/sqlc/store_test.go:57-84 | one more call keeps every successful result's rows stored, stamped `now` and new to the starting tables |
| Db.PairwiseDistinctAppend | db/sqlc/store_test.go:57-84 | the rows of one more call share no id with those of any earlier successful result |
| Ledger.AddBalance | db/sqlc/account_test.go:122-125 | adds delta to one balance; keeps every other field of that row and every other row |
| Ledger.Step | db/sqlc/store_test.go:86-114 | one transfer keeps the set of accounts and every non-balance field; each balance moves by the transfer's net flow into it, or not at all when an account is missing |
| Ledger.Replay | db/sqlc/store_test.go:25-39 | a serialised batch keeps the set of accounts and every non-balance field |
| Ledger.BalanceUpdatesCommute | db/sqlc/store_test.go:86-107 | the debit and the credit of one transfer give the same table in either order |
| Ledger.TransfersCommute | db/sqlc/store_test.go:147-164 | two transfers give the same accounts table whichever is serialised first |
| Ledger.TransferResultBalances | db/sqlc/store_test.go:87-113 | the returned rows keep id, owner, currency and creation time; between distinct accounts the debit equals the credit, and both equal the amount |
| Ledger.CurrencyIrrelevant | db/sqlc/store_test.go:15-16 | whether a transfer is booked, and its effect on every balance, do not depend on any account's currency |
| Ledger.AddBalanceSum | db/sqlc/account_test.go:124 | one balance update changes the sum of balances by exactly its delta |
| Ledger.TransferConserves | db/sqlc/store_test.go:110-113 | one transfer, booked or rolled back, leaves the sum of all balances unchanged |
| Ledger.BatchConserves | db/sqlc/store_test.go:124-132 | any serialised batch leaves the sum of all balances unchanged |
| Ledger.ReplayBalance | db/sqlc/store_test.go:124-132 | after a batch, each balance equals its start plus the net flow of the bookable transfers into it |
| Ledger.SameDirectionNetFlow | db/sqlc/store_test.go:131-132 | n same-direction transfers move −n·amount on the source, +n·amount on the destination, and 0 elsewhere |
| Ledger.SameDirectionBalances | db/sqlc/store_test.go:131-132 | after n same-direction transfers the source holds start − n·amount and the destination start + n·amount, whatever the sign; other rows are unchanged |
| Ledger.KthTransferDifference | db/sqlc/store_test.go:110-117 | the transfer serialised after i others returns rows (i+1)·amount below the source's start and above the destination's start |
| Ledger.EachMultipleOnce | db/sqlc/store_test.go:115-121 | differences (i+1)·amount with a positive amount are positive multiples of the amount, whose quotients k lie in 1..n and are pairwise distinct |
| Ledger.MultipleDivides | db/sqlc/store_test.go:115-117 | k·amount is positive, divisible by amount, and divides back to k |
| Ledger.SameDirectionResults | db/sqlc/store_test.go:50-121 | in a booked same-direction batch every transfer succeeds and echoes the request in its transfer row, its two entries and its account rows; the i-th differences are (i+1)·amount, and for a positive amount every k in 1..n appears exactly once |
| Ledger.AlternatingResults | db/sqlc/store_test.go:145-170 | in a booked batch that is any commit order of the alternating transfers, there are n results, and each succeeds exactly when both accounts exist |
| Ledger.ThereAndBack | db/sqlc/store_test.go:151-154 | a transfer followed by the same amount sent back restores the accounts table |
| Ledger.AlternatingNetsToZero | db/sqlc/store_test.go:147-180 | an even-length alternating batch committed in its interleaved order restores the accounts table exactly |
| Ledger.NetFlowConcat | db/sqlc/store_test.go:147-165 | the net flow of two batches run one after the other is the sum of their net flows |
| Ledger.NetFlowSplit | db/sqlc/store_test.go:147-165 | taking one request out of a batch takes exactly its own flow out of the net flow |
| Ledger.NetFlowPerm | db/sqlc/store_test.go:147-165 | the net flow of a batch into any account is the same for every order of its requests |
| Ledger.ReplayPerm | db/sqlc/store_test.go:147-165 | two commit orders of the same requests (equal multisets) leave the same accounts table |
| Ledger.AnyOrderNetsToZero | db/sqlc/store_test.go:147-180 | every commit order of an even number of alternating transfers restores the accounts table exactly |
| Ledger.OverdraftAllowed | db/sqlc/store_test.go:131 | a transfer larger than the source balance is still booked and leaves a negative balance |
| Ledger.BookedAppend | db/sqlc/store_test.go:43-48 | the result of the next serialised transfer extends the results of the batch so far |
| Ledger.InsertedIdsAppend | db/sqlc/store_test.go:57-84 | the transfer and entry ids a batch inserted grow by exactly the ids of the next successful result, and the number of successes by one for it |
| Ledger.OkCountUniform | db/sqlc/store_test.go:43-45 | when every result succeeded the number of successes is the batch length, and when none did it is zero |
| Ledger.Debits | db/sqlc/store_test.go:110 | one debit per result, the amount its source row is short of the start |
| Rows.IdsBelow | db/sqlc/account_test.go:79-86 | lists exactly the stored ids below the counter, each once |
| Rows.IdsBelowCount | db/sqlc/account_test.go:82 | that list is as long as the set of such ids |
| Rows.ListingCount | db/sqlc/account_test.go:82 | when every id is below the counter, the listing holds every row |
| Rows.Page | db/sqlc/account_test.go:74-82 | a LIMIT/OFFSET page has PageSize rows, so `limit` rows when offset + limit rows exist, and row i of the page is row offset + i of the full result |
| Currency.IsSupportedCurrency | util/currency.go:11-17 | true exactly for members of {USD, EUR, RUB}; a supported code is three upper-case letters |
| Currency.ConstantsDistinct | util/currency.go:5-7 | the three constants are pairwise distinct, so the supported set has three members |
| Currency.RejectsInexactCodes | util/currency.go:12-16 | a code with a lower-case letter, or of a length other than 3, is rejected |
| Random.Letters | util/random.go:10 | one alphabet letter per draw, each a lower-case letter |
| Random.RandomInt | util/random.go:18-20 | with min <= max and a draw in [0, max−min+1), the result is in [min, max] |
| Random.RandomIntCoversRange | util/random.go:18-20 | every value in [min, max] is produced by some draw |
| Random.RandomString | util/random.go:23-32 | the loop builds Letters(draws): n lower-case letters, and none for n <= 0 |
| Random.RandomOwner | util/random.go:35-37 | 15 lower-case letters |
| Random.RandomMoney | util/random.go:40-42 | a value in [0, 1000] |
| Random.RandomMoneyCoversRange | util/random.go:40-42 | every amount in [0, 1000], zero included, can be drawn |
| Random.RandomCurrency | util/random.go:45-50 | always a supported currency |
| Random.RandomCurrencyCoversSupported | util/random.go:45-50 | every supported currency can be drawn |
| Random.RandomEmail | util/random.go:53-55 | 19 characters: 10 letters, '@', 5 letters, '.', 2 letters |

## Left out

- Real concurrency is not modelled: goroutines, channels, row locks, isolation levels and deadlock freedom (db/sqlc/store_test.go:29-38, 156-164). Only the serialised outcome is modelled: the commit order is a parameter of `RunSerialised` and `AlternatingBatch`, and for the accounts table `Ledger.ReplayPerm` shows that it does not matter.
- The order in which `TransferTx` takes its row locks and applies its two balance updates is not modelled. The model applies the debit first. `Ledger.BalanceUpdatesCommute` proves that the resulting accounts table does not depend on that order.
- Db.Store.TransferTx: for a self-transfer, the returned account rows reflect the debit-first order: the source row is the balance less the amount and the destination row the balance itself. A credit-first order would return the balance and the balance plus the amount.
- SQL, the Postgres driver and the sqlc-generated code are not modelled. `sql.ErrNoRows` is a datatype variant, and ids are counter-assigned positive integers.
- Postgres sequences are not rolled back with a transaction, and an insert that fails its foreign key has already drawn its id, so later ids in Postgres can differ from the model's counters. No contract fixes id values: they promise only that a new id is positive and not in use.
- Timestamps are an explicit `now` value, and the `WithinDuration` checks are not modelled because they depend on the wall clock.
- bcrypt hashing (db/sqlc/user_test.go:13) is a foreign call, so the hashed password is an opaque string.
- The list queries return rows in ascending id order. The tests check only the count, so no contract states an order.
- The database schema is not part of this model. Its foreign keys are modelled as the `ForeignKeyViolation` cases and its unique username as `UniqueViolation`. No other constraint is modelled: not email uniqueness, not the currency, and not a sign on amounts or balances.
- `ListAccounts`, `ListEntries` and `ListTransfers` take `nat` limits and offsets. A negative `LIMIT`/`OFFSET`, which Postgres rejects, cannot be expressed.
- 64-bit integer widths are not modelled: balances and amounts are unbounded integers, so overflow of `int64` is not captured.
- Random.RandomInt: requires min <= max. For min > max, `rand.Int63n` in the source panics on a non-positive bound, and that panic is not modelled.
- The process-wide random seed (util/random.go:13-15) is not modelled, because every draw is a parameter.
- token/paseto_maker_test.go (PASETO tokens), api/server.go (HTTP routing), util/config.go (configuration loading) and main.go (process wiring) are not part of this model.
- Db.Store.SameDirectionBatch: the per-result "k occurs once" property holds only for a positive amount. The tests use 10, and with amount 0 every difference is 0.
