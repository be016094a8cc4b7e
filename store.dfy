/** The ledger database: the accounts, entries, transfers and users tables,
    the single-row queries on them, and the TransferTx transaction built from
    those queries. Ids come from one counter per table that starts at 1 and
    never hands out the same value twice; `now` is the database clock. */
module Db {
  import opened Rows
  import opened Ledger

  datatype CreateAccountParams = CreateAccountParams(owner: string, balance: int, currency: string)
  datatype UpdateAccountParams = UpdateAccountParams(id: int, balance: int)
  datatype AddAccountBalanceParams = AddAccountBalanceParams(id: int, amount: int)
  datatype CreateEntryParams = CreateEntryParams(accountId: int, amount: int)
  datatype UpdateEntryParams = UpdateEntryParams(id: int, amount: int)
  datatype CreateTransferParams = CreateTransferParams(fromAccountId: int, toAccountId: int, amount: int)
  datatype UpdateTransferParams = UpdateTransferParams(id: int, amount: int)
  datatype CreateUserParams = CreateUserParams(username: string, hashedPassword: string, fullName: string, email: string)

  ghost predicate AccountsValid(accounts: map<int, Account>, next: int)
  {
    && 0 < next
    && KeysBelow(accounts, next)
    && (forall id :: id in accounts ==> accounts[id].id == id)
  }

  /** Entries lie below their counter, sit under their own id, and name an existing account. */
  ghost predicate EntriesValid(entries: map<int, Entry>, next: int, accountIds: set<int>)
  {
    && 0 < next
    && KeysBelow(entries, next)
    && (forall id :: id in entries ==> entries[id].id == id && entries[id].accountId in accountIds)
  }

  /** Transfers lie below their counter, sit under their own id, and name existing accounts. */
  ghost predicate TransfersValid(transfers: map<int, Transfer>, next: int, accountIds: set<int>)
  {
    && 0 < next
    && KeysBelow(transfers, next)
    && (forall id :: id in transfers ==>
          && transfers[id].id == id
          && transfers[id].fromAccountId in accountIds && transfers[id].toAccountId in accountIds)
  }

  ghost predicate UsersValid(users: map<string, User>)
  {
    forall name :: name in users ==> users[name].username == name
  }

  /** Every row of `a` is in `b`, unchanged. */
  ghost predicate Extends<K, V>(a: map<K, V>, b: map<K, V>)
  {
    forall k :: k in a ==> k in b && b[k] == a[k]
  }

  /** The transfer row and the two entry rows of one TransferTx result are
      stored under their ids, and each was created at `now`. */
  ghost predicate Recorded(transfers: map<int, Transfer>, entries: map<int, Entry>, v: TransferTxResult, now: Timestamp)
  {
    && v.transfer.id in transfers && transfers[v.transfer.id] == v.transfer
    && v.fromEntry.id in entries && entries[v.fromEntry.id] == v.fromEntry
    && v.toEntry.id in entries && entries[v.toEntry.id] == v.toEntry
    && v.transfer.createdAt == now && v.fromEntry.createdAt == now && v.toEntry.createdAt == now
  }

  /** The rows of one successful result are new to the tables the batch started from. */
  ghost predicate FreshIn(oldTransfers: map<int, Transfer>, oldEntries: map<int, Entry>, v: TransferTxResult)
  {
    && v.transfer.id !in oldTransfers
    && v.fromEntry.id !in oldEntries && v.toEntry.id !in oldEntries && v.fromEntry.id != v.toEntry.id
  }

  /** Two successful results share no transfer id and no entry id. */
  ghost predicate DistinctRows(v: TransferTxResult, w: TransferTxResult)
  {
    && v.transfer.id != w.transfer.id
    && v.fromEntry.id != w.fromEntry.id && v.fromEntry.id != w.toEntry.id
    && v.toEntry.id != w.fromEntry.id && v.toEntry.id != w.toEntry.id
  }

  /** Every successful result's rows are stored, stamped `now`, and new to
      the tables the batch started from. */
  ghost predicate AllRecorded(oldTransfers: map<int, Transfer>, oldEntries: map<int, Entry>,
                              transfers: map<int, Transfer>, entries: map<int, Entry>,
                              results: seq<Result<TransferTxResult>>, now: Timestamp)
  {
    forall j :: 0 <= j < |results| && results[j].Ok? ==>
      Recorded(transfers, entries, results[j].value, now) && FreshIn(oldTransfers, oldEntries, results[j].value)
  }

  /** No two successful results share a row. */
  ghost predicate PairwiseDistinct(results: seq<Result<TransferTxResult>>)
  {
    forall i, j :: 0 <= i < j < |results| && results[i].Ok? && results[j].Ok? ==>
      DistinctRows(results[i].value, results[j].value)
  }

  /** What a batch of TransferTx calls did to the transfers and entries
      tables: every old row is kept; each successful result inserted one new
      transfer and two new entries, stamped `now`, shared with no other
      result; and those are the only ids added, so the tables grew by one
      transfer and two entries per success. */
  ghost predicate BatchInserted(oldTransfers: map<int, Transfer>, oldEntries: map<int, Entry>,
                                transfers: map<int, Transfer>, entries: map<int, Entry>,
                                results: seq<Result<TransferTxResult>>, now: Timestamp)
  {
    && Extends(oldTransfers, transfers) && Extends(oldEntries, entries)
    && transfers.Keys == oldTransfers.Keys + TransferIds(results)
    && entries.Keys == oldEntries.Keys + EntryIds(results)
    && AllRecorded(oldTransfers, oldEntries, transfers, entries, results, now)
    && PairwiseDistinct(results)
    && |transfers| == |oldTransfers| + OkCount(results)
    && |entries| == |oldEntries| + 2 * OkCount(results)
  }

  /** The three rows one successful TransferTx call inserts into `transfers`
      and `entries`, giving `transfers'` and `entries'`; a failed call
      changes neither. */
  ghost predicate InsertedBy(transfers: map<int, Transfer>, entries: map<int, Entry>,
                             transfers': map<int, Transfer>, entries': map<int, Entry>,
                             r: Result<TransferTxResult>, now: Timestamp)
  {
    && (r.Err? ==> transfers' == transfers && entries' == entries)
    && (r.Ok? ==>
      && r.value.transfer.id !in transfers && transfers' == transfers[r.value.transfer.id := r.value.transfer]
      && r.value.fromEntry.id !in entries && r.value.toEntry.id !in entries && r.value.fromEntry.id != r.value.toEntry.id
      && entries' == entries[r.value.fromEntry.id := r.value.fromEntry][r.value.toEntry.id := r.value.toEntry]
      && r.value.transfer.createdAt == now && r.value.fromEntry.createdAt == now && r.value.toEntry.createdAt == now)
  }

  /** One more TransferTx call keeps every result's rows recorded and fresh. */
  lemma AllRecordedAppend(oldTransfers: map<int, Transfer>, oldEntries: map<int, Entry>,
                          transfers: map<int, Transfer>, entries: map<int, Entry>,
                          results: seq<Result<TransferTxResult>>, now: Timestamp,
                          transfers': map<int, Transfer>, entries': map<int, Entry>, r: Result<TransferTxResult>)
    requires AllRecorded(oldTransfers, oldEntries, transfers, entries, results, now)
    requires Extends(oldTransfers, transfers) && Extends(oldEntries, entries)
    requires InsertedBy(transfers, entries, transfers', entries', r, now)
    ensures AllRecorded(oldTransfers, oldEntries, transfers', entries', results + [r], now)
  {
    var next := results + [r];
    forall j | 0 <= j < |next| && next[j].Ok?
      ensures Recorded(transfers', entries', next[j].value, now) && FreshIn(oldTransfers, oldEntries, next[j].value)
    {
      if j < |results| {
        assert next[j] == results[j];
      }
    }
  }

  /** The rows of one more TransferTx call are distinct from those of every
      earlier result, since those are already stored and its own are new. */
  lemma PairwiseDistinctAppend(oldTransfers: map<int, Transfer>, oldEntries: map<int, Entry>,
                               transfers: map<int, Transfer>, entries: map<int, Entry>,
                               results: seq<Result<TransferTxResult>>, now: Timestamp,
                               transfers': map<int, Transfer>, entries': map<int, Entry>, r: Result<TransferTxResult>)
    requires AllRecorded(oldTransfers, oldEntries, transfers, entries, results, now)
    requires PairwiseDistinct(results)
    requires InsertedBy(transfers, entries, transfers', entries', r, now)
    ensures PairwiseDistinct(results + [r])
  {
    var next := results + [r];
    forall i, j | 0 <= i < j < |next| && next[i].Ok? && next[j].Ok?
      ensures DistinctRows(next[i].value, next[j].value)
    {
      assert next[i] == results[i];
      if j < |results| {
        assert next[j] == results[j];
      } else {
        assert Recorded(transfers, entries, results[i].value, now);
      }
    }
  }

  /** One more TransferTx call keeps every old row and adds exactly its own ids. */
  lemma KeysAppend(oldTransfers: map<int, Transfer>, oldEntries: map<int, Entry>,
                   transfers: map<int, Transfer>, entries: map<int, Entry>,
                   results: seq<Result<TransferTxResult>>, now: Timestamp,
                   transfers': map<int, Transfer>, entries': map<int, Entry>, r: Result<TransferTxResult>)
    requires Extends(oldTransfers, transfers) && Extends(oldEntries, entries)
    requires transfers.Keys == oldTransfers.Keys + TransferIds(results)
    requires entries.Keys == oldEntries.Keys + EntryIds(results)
    requires InsertedBy(transfers, entries, transfers', entries', r, now)
    ensures Extends(oldTransfers, transfers') && Extends(oldEntries, entries')
    ensures transfers'.Keys == oldTransfers.Keys + TransferIds(results + [r])
    ensures entries'.Keys == oldEntries.Keys + EntryIds(results + [r])
  {
    InsertedIdsAppend(results, r);
  }

  /** One more successful TransferTx call adds one transfer row and two entry rows. */
  lemma CountsAppend(oldTransfers: map<int, Transfer>, oldEntries: map<int, Entry>,
                     transfers: map<int, Transfer>, entries: map<int, Entry>,
                     results: seq<Result<TransferTxResult>>, now: Timestamp,
                     transfers': map<int, Transfer>, entries': map<int, Entry>, r: Result<TransferTxResult>)
    requires |transfers| == |oldTransfers| + OkCount(results)
    requires |entries| == |oldEntries| + 2 * OkCount(results)
    requires InsertedBy(transfers, entries, transfers', entries', r, now)
    ensures |transfers'| == |oldTransfers| + OkCount(results + [r])
    ensures |entries'| == |oldEntries| + 2 * OkCount(results + [r])
  {
    InsertedIdsAppend(results, r);
    if r.Ok? {
      var mid := entries[r.value.fromEntry.id := r.value.fromEntry];
      assert |mid| == |entries| + 1;
    }
  }

  /** One more TransferTx call, which either inserted its three fresh rows or
      changed nothing, extends what the batch so far inserted. */
  lemma BatchInsertedAppend(oldTransfers: map<int, Transfer>, oldEntries: map<int, Entry>,
                            transfers: map<int, Transfer>, entries: map<int, Entry>,
                            results: seq<Result<TransferTxResult>>, now: Timestamp,
                            transfers': map<int, Transfer>, entries': map<int, Entry>, r: Result<TransferTxResult>)
    requires BatchInserted(oldTransfers, oldEntries, transfers, entries, results, now)
    requires InsertedBy(transfers, entries, transfers', entries', r, now)
    ensures BatchInserted(oldTransfers, oldEntries, transfers', entries', results + [r], now)
  {
    KeysAppend(oldTransfers, oldEntries, transfers, entries, results, now, transfers', entries', r);
    CountsAppend(oldTransfers, oldEntries, transfers, entries, results, now, transfers', entries', r);
    AllRecordedAppend(oldTransfers, oldEntries, transfers, entries, results, now, transfers', entries', r);
    PairwiseDistinctAppend(oldTransfers, oldEntries, transfers, entries, results, now, transfers', entries', r);
  }

  class Store {
    var accounts: map<int, Account>
    var entries: map<int, Entry>
    var transfers: map<int, Transfer>
    var users: map<string, User>
    var nextAccountId: int
    var nextEntryId: int
    var nextTransferId: int

    /** Every row is stored under its own id (username for users), ids lie
        below their counter, and every entry and transfer names existing
        accounts. */
    ghost predicate Valid()
      reads this
    {
      && AccountsValid(accounts, nextAccountId)
      && EntriesValid(entries, nextEntryId, accounts.Keys)
      && TransfersValid(transfers, nextTransferId, accounts.Keys)
      && UsersValid(users)
    }

    /** All money held in the accounts table. */
    ghost function TotalBalance(): int
      reads this
    {
      SumBelow(accounts, nextAccountId)
    }

    constructor ()
      ensures Valid()
      ensures accounts == map[] && entries == map[] && transfers == map[] && users == map[]
    {
      accounts, entries, transfers, users := map[], map[], map[], map[];
      nextAccountId, nextEntryId, nextTransferId := 1, 1, 1;
    }

    // -------------------------------------------------------------------------
    // accounts

    method CreateAccount(arg: CreateAccountParams, now: Timestamp) returns (account: Account)
      requires Valid() && now > ZeroTime
      modifies this`accounts, this`nextAccountId
      ensures Valid()
      ensures account.owner == arg.owner && account.balance == arg.balance && account.currency == arg.currency
      ensures account.id > 0 && account.id !in old(accounts) && account.createdAt == now
      ensures accounts == old(accounts)[account.id := account]
      ensures GetAccount(account.id) == Ok(account)
    {
      account := Account(nextAccountId, arg.owner, arg.balance, arg.currency, now);
      accounts := accounts[nextAccountId := account];
      nextAccountId := nextAccountId + 1;
    }

    function GetAccount(id: int): (r: Result<Account>)
      reads this
      requires Valid()
      ensures r.Ok? <==> id in accounts
      ensures r.Ok? ==> r.value == accounts[id] && r.value.id == id
      ensures r.Err? ==> r.error == ErrNoRows
    {
      if id in accounts then Ok(accounts[id]) else Err(ErrNoRows)
    }

    /** The locking read: the same row as GetAccount (the row lock itself is
        not modelled). */
    function GetAccountForUpdate(id: int): (r: Result<Account>)
      reads this
      requires Valid()
      ensures r == GetAccount(id)
      ensures r.Ok? ==> r.value == accounts[id] && r.value.id == id
    {
      GetAccount(id)
    }

    /** LIMIT `limit` OFFSET `offset` over the accounts, in id order. */
    function ListAccounts(limit: nat, offset: nat): (rows: seq<Account>)
      reads this
      requires Valid()
      ensures |rows| == PageSize(|accounts|, limit, offset)
      ensures offset + limit <= |accounts| ==> |rows| == limit
      ensures forall i :: 0 <= i < |rows| ==> rows[i].id > 0 && rows[i].id in accounts && accounts[rows[i].id] == rows[i]
      ensures forall i, j :: 0 <= i < j < |rows| ==> rows[i].id != rows[j].id
    {
      ListingCount(accounts, nextAccountId);
      Page(Listing(accounts, nextAccountId), limit, offset)
    }

    method UpdateAccount(arg: UpdateAccountParams) returns (r: Result<Account>)
      requires Valid()
      modifies this`accounts
      ensures Valid()
      ensures r.Ok? <==> arg.id in old(accounts)
      ensures r.Err? ==> r.error == ErrNoRows && accounts == old(accounts)
      ensures r.Ok? ==>
        && r.value == old(accounts)[arg.id].(balance := arg.balance)
        && accounts == old(accounts)[arg.id := r.value]
    {
      if arg.id !in accounts {
        return Err(ErrNoRows);
      }
      var account := accounts[arg.id].(balance := arg.balance);
      accounts := accounts[arg.id := account];
      r := Ok(account);
    }

    /** `balance = balance + amount` in one statement, returning the new row. */
    method AddAccountBalance(arg: AddAccountBalanceParams) returns (r: Result<Account>)
      requires Valid()
      modifies this`accounts
      ensures Valid()
      ensures r.Ok? <==> arg.id in old(accounts)
      ensures r.Err? ==> r.error == ErrNoRows && accounts == old(accounts)
      ensures r.Ok? ==> accounts == AddBalance(old(accounts), arg.id, arg.amount) && r.value == accounts[arg.id]
      ensures TotalBalance() == old(TotalBalance()) + (if r.Ok? then arg.amount else 0)
    {
      if arg.id !in accounts {
        return Err(ErrNoRows);
      }
      AddBalanceSum(accounts, arg.id, arg.amount, nextAccountId);
      accounts := AddBalance(accounts, arg.id, arg.amount);
      r := Ok(accounts[arg.id]);
    }

    /** Some entry or transfer names the account. */
    predicate Referenced(id: int)
      reads this
    {
      || (exists e :: e in entries && entries[e].accountId == id)
      || (exists t :: t in transfers && (transfers[t].fromAccountId == id || transfers[t].toAccountId == id))
    }

    /** Deleting a missing row is not an error; deleting an account that an
        entry or a transfer still names violates the foreign key. */
    method DeleteAccount(id: int) returns (outcome: Outcome)
      requires Valid()
      modifies this`accounts
      ensures Valid()
      ensures outcome.Failed? <==> id in old(accounts) && Referenced(id)
      ensures outcome.Failed? ==> outcome.error == ForeignKeyViolation && accounts == old(accounts)
      ensures outcome.Done? ==> accounts == old(accounts) - {id} && GetAccount(id) == Err(ErrNoRows)
    {
      if id in accounts && Referenced(id) {
        return Failed(ForeignKeyViolation);
      }
      accounts := accounts - {id};
      outcome := Done;
    }

    // -------------------------------------------------------------------------
    // entries

    method CreateEntry(arg: CreateEntryParams, now: Timestamp) returns (r: Result<Entry>)
      requires Valid() && now > ZeroTime
      modifies this`entries, this`nextEntryId
      ensures Valid()
      ensures r.Ok? <==> arg.accountId in accounts
      ensures r.Err? ==> r.error == ForeignKeyViolation && entries == old(entries)
      ensures r.Ok? ==>
        && r.value.accountId == arg.accountId && r.value.amount == arg.amount
        && r.value.id > 0 && r.value.id !in old(entries) && r.value.createdAt == now
        && entries == old(entries)[r.value.id := r.value]
        && GetEntry(r.value.id) == Ok(r.value)
    {
      if arg.accountId !in accounts {
        return Err(ForeignKeyViolation);
      }
      var entry := Entry(nextEntryId, arg.accountId, arg.amount, now);
      entries := entries[nextEntryId := entry];
      nextEntryId := nextEntryId + 1;
      r := Ok(entry);
    }

    function GetEntry(id: int): (r: Result<Entry>)
      reads this
      requires Valid()
      ensures r.Ok? <==> id in entries
      ensures r.Ok? ==> r.value == entries[id] && r.value.id == id && r.value.accountId in accounts
      ensures r.Err? ==> r.error == ErrNoRows
    {
      if id in entries then Ok(entries[id]) else Err(ErrNoRows)
    }

    /** LIMIT `limit` OFFSET `offset` over all entries, in id order. */
    function ListEntries(limit: nat, offset: nat): (rows: seq<Entry>)
      reads this
      requires Valid()
      ensures |rows| == PageSize(|entries|, limit, offset)
      ensures offset + limit <= |entries| ==> |rows| == limit
      ensures forall i :: 0 <= i < |rows| ==> rows[i].id > 0 && rows[i].id in entries && entries[rows[i].id] == rows[i]
      ensures forall i, j :: 0 <= i < j < |rows| ==> rows[i].id != rows[j].id
    {
      ListingCount(entries, nextEntryId);
      Page(Listing(entries, nextEntryId), limit, offset)
    }

    method UpdateEntry(arg: UpdateEntryParams) returns (r: Result<Entry>)
      requires Valid()
      modifies this`entries
      ensures Valid()
      ensures r.Ok? <==> arg.id in old(entries)
      ensures r.Err? ==> r.error == ErrNoRows && entries == old(entries)
      ensures r.Ok? ==>
        && r.value == old(entries)[arg.id].(amount := arg.amount)
        && entries == old(entries)[arg.id := r.value]
    {
      if arg.id !in entries {
        return Err(ErrNoRows);
      }
      var entry := entries[arg.id].(amount := arg.amount);
      entries := entries[arg.id := entry];
      r := Ok(entry);
    }

    method DeleteEntry(id: int)
      requires Valid()
      modifies this`entries
      ensures Valid()
      ensures entries == old(entries) - {id}
      ensures GetEntry(id) == Err(ErrNoRows)
    {
      entries := entries - {id};
    }

    // -------------------------------------------------------------------------
    // transfers

    method CreateTransfer(arg: CreateTransferParams, now: Timestamp) returns (r: Result<Transfer>)
      requires Valid() && now > ZeroTime
      modifies this`transfers, this`nextTransferId
      ensures Valid()
      ensures r.Ok? <==> arg.fromAccountId in accounts && arg.toAccountId in accounts
      ensures r.Err? ==> r.error == ForeignKeyViolation && transfers == old(transfers)
      ensures r.Ok? ==>
        && r.value.fromAccountId == arg.fromAccountId && r.value.toAccountId == arg.toAccountId
        && r.value.amount == arg.amount
        && r.value.id > 0 && r.value.id !in old(transfers) && r.value.createdAt == now
        && transfers == old(transfers)[r.value.id := r.value]
        && GetTransfer(r.value.id) == Ok(r.value)
    {
      if arg.fromAccountId !in accounts || arg.toAccountId !in accounts {
        return Err(ForeignKeyViolation);
      }
      var transfer := Transfer(nextTransferId, arg.fromAccountId, arg.toAccountId, arg.amount, now);
      transfers := transfers[nextTransferId := transfer];
      nextTransferId := nextTransferId + 1;
      r := Ok(transfer);
    }

    function GetTransfer(id: int): (r: Result<Transfer>)
      reads this
      requires Valid()
      ensures r.Ok? <==> id in transfers
      ensures r.Ok? ==>
        && r.value == transfers[id] && r.value.id == id
        && r.value.fromAccountId in accounts && r.value.toAccountId in accounts
      ensures r.Err? ==> r.error == ErrNoRows
    {
      if id in transfers then Ok(transfers[id]) else Err(ErrNoRows)
    }

    /** LIMIT `limit` OFFSET `offset` over all transfers, in id order. */
    function ListTransfers(limit: nat, offset: nat): (rows: seq<Transfer>)
      reads this
      requires Valid()
      ensures |rows| == PageSize(|transfers|, limit, offset)
      ensures offset + limit <= |transfers| ==> |rows| == limit
      ensures forall i :: 0 <= i < |rows| ==> rows[i].id > 0 && rows[i].id in transfers && transfers[rows[i].id] == rows[i]
      ensures forall i, j :: 0 <= i < j < |rows| ==> rows[i].id != rows[j].id
    {
      ListingCount(transfers, nextTransferId);
      Page(Listing(transfers, nextTransferId), limit, offset)
    }

    method UpdateTransfer(arg: UpdateTransferParams) returns (r: Result<Transfer>)
      requires Valid()
      modifies this`transfers
      ensures Valid()
      ensures r.Ok? <==> arg.id in old(transfers)
      ensures r.Err? ==> r.error == ErrNoRows && transfers == old(transfers)
      ensures r.Ok? ==>
        && r.value == old(transfers)[arg.id].(amount := arg.amount)
        && transfers == old(transfers)[arg.id := r.value]
    {
      if arg.id !in transfers {
        return Err(ErrNoRows);
      }
      var transfer := transfers[arg.id].(amount := arg.amount);
      transfers := transfers[arg.id := transfer];
      r := Ok(transfer);
    }

    method DeleteTransfer(id: int)
      requires Valid()
      modifies this`transfers
      ensures Valid()
      ensures transfers == old(transfers) - {id}
      ensures GetTransfer(id) == Err(ErrNoRows)
    {
      transfers := transfers - {id};
    }

    // -------------------------------------------------------------------------
    // users

    /** Inserts a user keyed by username; its password has never been changed. */
    method CreateUser(arg: CreateUserParams, now: Timestamp) returns (r: Result<User>)
      requires Valid() && now > ZeroTime
      modifies this`users
      ensures Valid()
      ensures r.Ok? <==> arg.username !in old(users)
      ensures r.Err? ==> r.error == UniqueViolation && users == old(users)
      ensures r.Ok? ==>
        && r.value.username == arg.username && r.value.hashedPassword == arg.hashedPassword
        && r.value.fullName == arg.fullName && r.value.email == arg.email
        && r.value.passwordChangedAt == ZeroTime && r.value.createdAt != ZeroTime
        && users == old(users)[arg.username := r.value]
        && GetUser(arg.username) == Ok(r.value)
    {
      if arg.username in users {
        return Err(UniqueViolation);
      }
      var user := User(arg.username, arg.hashedPassword, arg.fullName, arg.email, ZeroTime, now);
      users := users[arg.username := user];
      r := Ok(user);
    }

    function GetUser(username: string): (r: Result<User>)
      reads this
      requires Valid()
      ensures r.Ok? <==> username in users
      ensures r.Ok? ==> r.value == users[username] && r.value.username == username
      ensures r.Err? ==> r.error == ErrNoRows
    {
      if username in users then Ok(users[username]) else Err(ErrNoRows)
    }

    // -------------------------------------------------------------------------
    // the transfer transaction

    /** Inside one database transaction: insert the transfer, insert the debit
        entry on the source and the credit entry on the destination, then add
        -amount to the source balance and +amount to the destination balance.
        Only a missing account can make it fail, and that is found by the
        first insert, so the rolled-back transaction leaves every table as it
        was. Neither the amount, nor the balances, nor the currencies are
        checked. */
    method TransferTx(arg: TransferTxParam, now: Timestamp) returns (r: Result<TransferTxResult>)
      requires Valid() && now > ZeroTime
      modifies this`accounts, this`entries, this`nextEntryId, this`transfers, this`nextTransferId
      ensures Valid()
      ensures r.Ok? <==> Feasible(old(accounts), arg)
      ensures accounts == Step(old(accounts), arg)
      ensures TotalBalance() == old(TotalBalance())
      ensures r.Err? ==> r.error == ForeignKeyViolation && entries == old(entries) && transfers == old(transfers)
      ensures r.Ok? ==> IsTransferTxResult(old(accounts), arg, r.value)
      ensures r.Ok? ==>
        r.value.transfer.createdAt == now && r.value.fromEntry.createdAt == now && r.value.toEntry.createdAt == now
      ensures r.Ok? ==>
        && r.value.transfer.id !in old(transfers)
        && transfers == old(transfers)[r.value.transfer.id := r.value.transfer]
        && r.value.fromEntry.id !in old(entries) && r.value.toEntry.id !in old(entries)
        && entries == old(entries)[r.value.fromEntry.id := r.value.fromEntry][r.value.toEntry.id := r.value.toEntry]
      ensures r.Ok? ==>
        && GetTransfer(r.value.transfer.id) == Ok(r.value.transfer)
        && GetEntry(r.value.fromEntry.id) == Ok(r.value.fromEntry)
        && GetEntry(r.value.toEntry.id) == Ok(r.value.toEntry)
        && GetAccount(arg.toAccountId) == Ok(r.value.toAccount)
        && (arg.fromAccountId != arg.toAccountId ==> GetAccount(arg.fromAccountId) == Ok(r.value.fromAccount))
    {
      var transfer := CreateTransfer(CreateTransferParams(arg.fromAccountId, arg.toAccountId, arg.amount), now);
      if transfer.Err? {
        TransferConserves(accounts, arg, nextAccountId);
        return Err(transfer.error);
      }
      ghost var booked := transfers;
      assert booked == old(transfers)[transfer.value.id := transfer.value];
      var fromEntry := CreateEntry(CreateEntryParams(arg.fromAccountId, -arg.amount), now);
      assert fromEntry.Ok? && fromEntry.value.id !in old(entries);
      ghost var debited := entries;
      assert debited == old(entries)[fromEntry.value.id := fromEntry.value];
      var toEntry := CreateEntry(CreateEntryParams(arg.toAccountId, arg.amount), now);
      assert toEntry.Ok? && toEntry.value.id !in debited;
      var fromAccount, toAccount := MoveBalances(arg);
      r := Ok(TransferTxResult(transfer.value, fromAccount, toAccount, fromEntry.value, toEntry.value));
    }

    /** The two balance updates of a booked transfer, each an AddAccountBalance
        call: the debit of the source, then the credit of the destination.
        The rows returned are the accounts as each update leaves them. */
    method MoveBalances(arg: TransferTxParam) returns (fromAccount: Account, toAccount: Account)
      requires Valid() && Feasible(accounts, arg)
      modifies this`accounts
      ensures Valid()
      ensures accounts == Step(old(accounts), arg)
      ensures TotalBalance() == old(TotalBalance())
      ensures fromAccount == old(accounts)[arg.fromAccountId].(balance := old(accounts)[arg.fromAccountId].balance - arg.amount)
      ensures toAccount == accounts[arg.toAccountId]
      ensures toAccount == if arg.fromAccountId == arg.toAccountId then old(accounts)[arg.toAccountId]
                           else old(accounts)[arg.toAccountId].(balance := old(accounts)[arg.toAccountId].balance + arg.amount)
      ensures arg.fromAccountId != arg.toAccountId ==> fromAccount == accounts[arg.fromAccountId]
    {
      TransferConserves(accounts, arg, nextAccountId);
      ghost var debitedAccounts := AddBalance(accounts, arg.fromAccountId, -arg.amount);
      assert Step(accounts, arg) == AddBalance(debitedAccounts, arg.toAccountId, arg.amount);
      var debit := AddAccountBalance(AddAccountBalanceParams(arg.fromAccountId, -arg.amount));
      var credit := AddAccountBalance(AddAccountBalanceParams(arg.toAccountId, arg.amount));
      fromAccount, toAccount := debit.value, credit.value;
    }

    // -------------------------------------------------------------------------
    // concurrent transfers, as the database serialises them

    /** The transfers of a batch of concurrent TransferTx calls in the order the
        database serialises them: each one sees the balances its predecessors
        left behind. */
    method RunSerialised(reqs: seq<TransferTxParam>, now: Timestamp) returns (results: seq<Result<TransferTxResult>>)
      requires Valid() && now > ZeroTime
      modifies this`accounts, this`entries, this`nextEntryId, this`transfers, this`nextTransferId
      ensures Valid()
      ensures accounts == Replay(old(accounts), reqs)
      ensures TotalBalance() == old(TotalBalance())
      ensures |results| == |reqs| && Booked(old(accounts), reqs, results)
      ensures BatchInserted(old(transfers), old(entries), transfers, entries, results, now)
      ensures forall j :: 0 <= j < |results| && results[j].Ok? ==> Retrievable(results[j].value)
    {
      results := [];
      var i := 0;
      while i < |reqs|
        invariant 0 <= i <= |reqs| && |results| == i
        invariant Serialised(old(accounts), old(transfers), old(entries), old(TotalBalance()), reqs, results, now)
      {
        results := RunNext(reqs, results, now, old(accounts), old(transfers), old(entries), old(TotalBalance()));
        i := i + 1;
      }
      SerialisedAll(old(accounts), old(transfers), old(entries), old(TotalBalance()), reqs, results, now);
    }

    /** Once every request has run, the accounts are the replay of the whole
        batch, and the rows each result recorded can be read back with
        GetTransfer and GetEntry. */
    lemma SerialisedAll(start: Accounts, startTransfers: map<int, Transfer>, startEntries: map<int, Entry>,
                        total: int, reqs: seq<TransferTxParam>, results: seq<Result<TransferTxResult>>, now: Timestamp)
      requires |results| == |reqs| && Serialised(start, startTransfers, startEntries, total, reqs, results, now)
      ensures Valid()
      ensures accounts == Replay(start, reqs)
      ensures TotalBalance() == total
      ensures Booked(start, reqs, results)
      ensures BatchInserted(startTransfers, startEntries, transfers, entries, results, now)
      ensures forall j :: 0 <= j < |results| && results[j].Ok? ==> Retrievable(results[j].value)
    {
      assert reqs[..|results|] == reqs;
      forall j | 0 <= j < |results| && results[j].Ok?
        ensures Retrievable(results[j].value)
      {
        assert Recorded(transfers, entries, results[j].value, now);
      }
    }

    /** The state after the first |results| requests of `reqs` ran, one after
        another, on the accounts `start`, the transfers `startTransfers`, the
        entries `startEntries` and the total balance `total`. */
    ghost predicate Serialised(start: Accounts, startTransfers: map<int, Transfer>, startEntries: map<int, Entry>,
                               total: int, reqs: seq<TransferTxParam>, results: seq<Result<TransferTxResult>>, now: Timestamp)
      reads this
    {
      && Valid() && |results| <= |reqs|
      && accounts == Replay(start, reqs[..|results|])
      && TotalBalance() == total
      && Booked(start, reqs, results)
      && BatchInserted(startTransfers, startEntries, transfers, entries, results, now)
    }

    /** Runs the next request of a serialised batch. */
    method RunNext(reqs: seq<TransferTxParam>, results: seq<Result<TransferTxResult>>, now: Timestamp,
                   ghost start: Accounts, ghost startTransfers: map<int, Transfer>, ghost startEntries: map<int, Entry>, ghost total: int)
      returns (results': seq<Result<TransferTxResult>>)
      requires now > ZeroTime && |results| < |reqs|
      requires Serialised(start, startTransfers, startEntries, total, reqs, results, now)
      modifies this`accounts, this`entries, this`nextEntryId, this`transfers, this`nextTransferId
      ensures |results'| == |results| + 1 && results'[..|results|] == results
      ensures Serialised(start, startTransfers, startEntries, total, reqs, results', now)
    {
      ghost var accountsBefore, transfersBefore, entriesBefore := accounts, transfers, entries;
      var r := TransferTx(reqs[|results|], now);
      SerialisedNext(start, startTransfers, startEntries, total, reqs, results, now, accountsBefore, transfersBefore, entriesBefore, r);
      results' := results + [r];
    }

    /** The result of running the next request on the state the batch so far
        left behind extends the batch. */
    lemma SerialisedNext(start: Accounts, startTransfers: map<int, Transfer>, startEntries: map<int, Entry>,
                         total: int, reqs: seq<TransferTxParam>, results: seq<Result<TransferTxResult>>, now: Timestamp,
                         accountsBefore: Accounts, transfersBefore: map<int, Transfer>, entriesBefore: map<int, Entry>,
                         r: Result<TransferTxResult>)
      requires |results| < |reqs| && Booked(start, reqs, results)
      requires accountsBefore == Replay(start, reqs[..|results|])
      requires BatchInserted(startTransfers, startEntries, transfersBefore, entriesBefore, results, now)
      requires Valid() && TotalBalance() == total
      requires accounts == Step(accountsBefore, reqs[|results|])
      requires r.Ok? <==> Feasible(accountsBefore, reqs[|results|])
      requires r.Ok? ==> IsTransferTxResult(accountsBefore, reqs[|results|], r.value)
      requires InsertedBy(transfersBefore, entriesBefore, transfers, entries, r, now)
      ensures Serialised(start, startTransfers, startEntries, total, reqs, results + [r], now)
    {
      assert accounts == Replay(start, reqs[..|results + [r]|]) by {
        ReplayPrefix(start, reqs, |results|);
      }
      assert Booked(start, reqs, results + [r]) by {
        BookedAppend(start, reqs, results, r);
      }
      assert BatchInserted(startTransfers, startEntries, transfers, entries, results + [r], now) by {
        BatchInsertedAppend(startTransfers, startEntries, transfersBefore, entriesBefore, results, now, transfers, entries, r);
      }
    }

    /** The transfer row and both entry rows of a result can be read back. */
    ghost predicate Retrievable(v: TransferTxResult)
      reads this
      requires Valid()
    {
      && GetTransfer(v.transfer.id) == Ok(v.transfer)
      && GetEntry(v.fromEntry.id) == Ok(v.fromEntry)
      && GetEntry(v.toEntry.id) == Ok(v.toEntry)
    }

    /** `n` concurrent transfers of `amount` from one account to another: all
        succeed, each echoes the request, the i-th one serialised leaves both
        accounts exactly (i + 1) * amount away from where they started, and in
        the end the source has lost n * amount and the destination gained it. */
    method SameDirectionBatch(fromId: int, toId: int, amount: int, n: nat, now: Timestamp)
      returns (results: seq<Result<TransferTxResult>>)
      requires Valid() && now > ZeroTime
      requires fromId in accounts && toId in accounts && fromId != toId
      modifies this`accounts, this`entries, this`nextEntryId, this`transfers, this`nextTransferId
      ensures Valid()
      ensures |results| == n && accounts == Replay(old(accounts), SameDirection(fromId, toId, amount, n))
      ensures Booked(old(accounts), SameDirection(fromId, toId, amount, n), results)
      ensures forall i :: 0 <= i < n ==> results[i].Ok?
      ensures forall i :: 0 <= i < n ==> EchoesSameDirection(old(accounts), fromId, toId, amount, results[i].value)
      ensures forall i :: 0 <= i < n ==>
        && old(accounts)[fromId].balance - results[i].value.fromAccount.balance == (i + 1) * amount
        && results[i].value.toAccount.balance - old(accounts)[toId].balance == (i + 1) * amount
      ensures amount > 0 ==> forall i :: 0 <= i < n ==>
        var d := Debits(old(accounts)[fromId].balance, results)[i];
        d > 0 && d % amount == 0 && 1 <= d / amount <= n
      ensures amount > 0 ==> forall i, j :: 0 <= i < j < n ==>
        Debits(old(accounts)[fromId].balance, results)[i] / amount != Debits(old(accounts)[fromId].balance, results)[j] / amount
      ensures accounts[fromId].balance == old(accounts)[fromId].balance - n * amount
      ensures accounts[toId].balance == old(accounts)[toId].balance + n * amount
      ensures SameExceptBalance(accounts[fromId], old(accounts)[fromId]) && SameExceptBalance(accounts[toId], old(accounts)[toId])
      ensures forall id :: id in old(accounts) && id != fromId && id != toId ==> accounts[id] == old(accounts)[id]
      ensures BatchInserted(old(transfers), old(entries), transfers, entries, results, now)
      ensures forall i :: 0 <= i < n ==> Retrievable(results[i].value)
      ensures |transfers| == |old(transfers)| + n && |entries| == |old(entries)| + 2 * n
    {
      results := RunSerialised(SameDirection(fromId, toId, amount, n), now);
      SameDirectionBalances(old(accounts), fromId, toId, amount, n);
      SameDirectionResults(old(accounts), fromId, toId, amount, n, results);
      OkCountUniform(results);
    }

    /** `n` concurrent transfers of `amount` between two accounts, every other
        one in the opposite direction, committed in the order `reqs`, which
        may be any order of those transfers: each succeeds exactly when both
        accounts exist, and with `n` even every balance ends where it
        started. */
    method AlternatingBatch(fromId: int, toId: int, amount: int, n: nat, reqs: seq<TransferTxParam>, now: Timestamp)
      returns (results: seq<Result<TransferTxResult>>)
      requires Valid() && now > ZeroTime
      requires n % 2 == 0 && multiset(reqs) == multiset(Alternating(fromId, toId, amount, n))
      modifies this`accounts, this`entries, this`nextEntryId, this`transfers, this`nextTransferId
      ensures Valid()
      ensures |results| == n
      ensures Booked(old(accounts), reqs, results)
      ensures forall i :: 0 <= i < n ==> (results[i].Ok? <==> fromId in old(accounts) && toId in old(accounts))
      ensures accounts == old(accounts)
      ensures BatchInserted(old(transfers), old(entries), transfers, entries, results, now)
      ensures forall i :: 0 <= i < n && results[i].Ok? ==> Retrievable(results[i].value)
      ensures var added := if fromId in old(accounts) && toId in old(accounts) then n else 0;
        |transfers| == |old(transfers)| + added && |entries| == |old(entries)| + 2 * added
    {
      results := RunSerialised(reqs, now);
      AnyOrderNetsToZero(old(accounts), fromId, toId, amount, n, reqs);
      AlternatingResults(old(accounts), fromId, toId, amount, n, reqs, results);
      OkCountUniform(results);
    }
  }
}
